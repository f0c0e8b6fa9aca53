/**
 * The directive compiler of the `close` handler in `tjs_parseSourceFile`:
 * the payload is split on `|>`, each segment trimmed, empty segments
 * dropped, `()` appended to a segment that does not end in `)`, and each
 * segment matched against `/^([^\(]+)(.*)$/m` to give a step's name and its
 * argument text.
 */
module Compiler {
  import opened Wrappers
  import opened Text
  import opened Seqs

  /** One transform invocation: `name` and its argument text, kept verbatim. */
  datatype Step = Step(name: string, argsTuple: string)

  /** The step regex found no match: `parts` is `null` and reading `parts[1]` throws. */
  datatype CompileError = MalformedStep(segment: string)

  // ---------------------------------------------------------------------
  // Splitting on the step separator

  /** The separator `|>` starts at index `i` of `s`. */
  predicate SeparatorAt(s: string, i: int) {
    0 <= i && i + 1 < |s| && s[i] == '|' && s[i + 1] == '>'
  }


  /** The first occurrence of `|>` at or after `from`, or `|s|` when there is none. */
  function FirstSeparator(s: string, from: nat): (i: nat)
    requires from <= |s|
    ensures from <= i <= |s|
    ensures i < |s| ==> SeparatorAt(s, i)
    ensures forall j {:trigger SeparatorAt(s, j)} :: from <= j < i ==> !SeparatorAt(s, j)
    decreases |s| - from
  {
    if from == |s| then |s|
    else if SeparatorAt(s, from) then from
    else FirstSeparator(s, from + 1)
  }

  /** `s` holds `|>` somewhere. */
  predicate HasSeparator(s: string) {
    FirstSeparator(s, 0) < |s|
  }

  /** `s.split('|>')`: the pieces between occurrences of `|>`, found left to right. */
  function SplitPipes(s: string): (parts: seq<string>)
    ensures |parts| >= 1
    ensures forall k :: 0 <= k < |parts| ==> !HasSeparator(parts[k])
    ensures Join(parts, "|>") == s
    ensures NoLineTerminator(s) ==> forall k :: 0 <= k < |parts| ==> NoLineTerminator(parts[k])
    decreases |s|
  {
    var i := FirstSeparator(s, 0);
    if i == |s| then
      assert !HasSeparator(s);
      [s]
    else
      var head := s[..i];
      var rest := SplitPipes(s[i + 2..]);
      assert !HasSeparator(head) by {
        forall j | 0 <= j < |head| ensures !SeparatorAt(head, j) {
          assert SeparatorAt(head, j) ==> SeparatorAt(s, j);
        }
      }
      assert ([head] + rest)[1..] == rest;
      assert s == head + "|>" + s[i + 2..];
      assert NoLineTerminator(s) ==> NoLineTerminator(head) && NoLineTerminator(s[i + 2..]);
      [head] + rest
  }

  /** In `p + "|>" + rest`, the first separator is the one after `p` when `p` holds none. */
  lemma FirstSeparatorAfter(p: string, rest: string)
    requires !HasSeparator(p)
    ensures FirstSeparator(p + "|>" + rest, 0) == |p|
  {
    var s := p + "|>" + rest;
    assert SeparatorAt(s, |p|);
    forall j | 0 <= j < |p| ensures !SeparatorAt(s, j) {
      if j + 1 < |p| {
        assert !SeparatorAt(p, j);
      } else {
        assert s[j + 1] == '|';
      }
    }
  }

  /**
   * The split is the only way of cutting a string at separators into pieces
   * that hold none: splitting a join gives back the joined pieces.
   */
  lemma {:induction false} SplitPipesOfJoin(parts: seq<string>)
    requires |parts| >= 1
    requires forall k :: 0 <= k < |parts| ==> !HasSeparator(parts[k])
    ensures SplitPipes(Join(parts, "|>")) == parts
  {
    var p := parts[0];
    if |parts| == 1 {
      assert FirstSeparator(p, 0) == |p|;
    } else {
      var rest := Join(parts[1..], "|>");
      var s := p + "|>" + rest;
      assert Join(parts, "|>") == s;
      FirstSeparatorAfter(p, rest);
      assert s[..|p|] == p;
      assert s[|p| + 2..] == rest;
      SplitPipesOfJoin(parts[1..]);
      assert parts == [p] + parts[1..];
    }
  }

  /** Splitting distributes over a separator: the pieces on either side are split independently. */
  lemma SplitPipesAppend(a: string, b: string)
    ensures SplitPipes(a + "|>" + b) == SplitPipes(a) + SplitPipes(b)
  {
    var pa, pb := SplitPipes(a), SplitPipes(b);
    JoinAppend(pa, pb, "|>");
    SplitPipesOfJoin(pa + pb);
  }

  // ---------------------------------------------------------------------
  // Normalising segments

  /** `.map(t => t[t.length - 1] != ')' ? t + '()' : t)` on one non-empty segment. */
  function AddParens(t: string): (r: string)
    requires t != []
    ensures |t| <= |r| && r[..|t|] == t && r[0] == t[0]
    ensures r[|r| - 1] == ')'
    ensures r == t <==> t[|t| - 1] == ')'
    ensures r == t || r == t + "()"
  {
    if t[|t| - 1] != ')' then t + "()" else t
  }

  /** `.filter(t => t != '')`. */
  function DropEmpty(segs: seq<string>): (r: seq<string>)
    ensures |r| <= |segs|
    ensures forall k :: 0 <= k < |r| ==> r[k] != []
  {
    if segs == [] then []
    else (if segs[0] == [] then [] else [segs[0]]) + DropEmpty(segs[1..])
  }

  /** The filter keeps exactly the non-empty segments: none is lost, none is invented. */
  lemma {:induction false} DropEmptySpec(segs: seq<string>)
    ensures |DropEmpty(segs)| <= |segs|
    ensures forall k :: 0 <= k < |DropEmpty(segs)| ==> DropEmpty(segs)[k] != [] && DropEmpty(segs)[k] in segs
    ensures forall t :: t in segs && t != [] ==> t in DropEmpty(segs)
  {
    if segs != [] {
      DropEmptySpec(segs[1..]);
      assert forall t :: t in segs[1..] ==> t in segs;
      assert forall t :: t in segs ==> t == segs[0] || t in segs[1..];
    }
  }

  lemma {:induction false} DropEmptyAppend(a: seq<string>, b: seq<string>)
    ensures DropEmpty(a + b) == DropEmpty(a) + DropEmpty(b)
  {
    if a != [] {
      assert (a + b)[1..] == a[1..] + b;
      DropEmptyAppend(a[1..], b);
    } else {
      assert a + b == b;
    }
  }

  /** `.map(t => t.trim())`. */
  function TrimAll(parts: seq<string>): seq<string> {
    Map(Trim, parts)
  }

  /** The paren step applied to every (non-empty) kept segment. */
  function AddParensAll(kept: seq<string>): (r: seq<string>)
    requires forall k :: 0 <= k < |kept| ==> kept[k] != []
    ensures |r| == |kept|
    ensures forall k :: 0 <= k < |r| ==> r[k] != [] && r[k][|r[k]| - 1] == ')'
  {
    seq(|kept|, k requires 0 <= k < |kept| => AddParens(kept[k]))
  }

  /**
   * What a normalised segment looks like: non-empty, no leading whitespace,
   * ending in `)`, and free of separators.
   */
  predicate Normal(seg: string) {
    seg != [] && !IsSpace(seg[0]) && seg[|seg| - 1] == ')' && !HasSeparator(seg)
  }

  /** A piece of a string has no separator or line terminator that the string lacks. */
  lemma InfixKeeps(s: string, i: nat, r: string)
    requires i + |r| <= |s| && s[i..i + |r|] == r
    ensures !HasSeparator(s) ==> !HasSeparator(r)
    ensures NoLineTerminator(s) ==> NoLineTerminator(r)
  {
    assert forall j :: 0 <= j < |r| ==> r[j] == s[i + j];
    forall j | 0 <= j < |r| && SeparatorAt(r, j) ensures SeparatorAt(s, i + j) {
      assert r[j + 1] == s[i + j + 1];
    }
  }

  /** Trimming keeps the absence of separators and of line terminators. */
  lemma TrimKeeps(s: string)
    ensures !HasSeparator(s) ==> !HasSeparator(Trim(s))
    ensures NoLineTerminator(s) ==> NoLineTerminator(Trim(s))
  {
    TrimSurroundings(s);
    var r := Trim(s);
    var a := s[..|s| - |TrimStart(s)|];
    assert s[|a|..|a| + |r|] == r;
    InfixKeeps(s, |a|, r);
  }

  /** Appending `()` adds neither a separator nor a line terminator. */
  lemma AddParensKeeps(t: string)
    requires t != []
    ensures !HasSeparator(t) ==> !HasSeparator(AddParens(t))
    ensures NoLineTerminator(t) ==> NoLineTerminator(AddParens(t))
  {
    var r := AddParens(t);
    if r != t {
      assert r == t + "()";
      assert forall j :: 0 <= j < |r| ==> r[j] == if j < |t| then t[j] else "()"[j - |t|];
      forall j | 0 <= j < |r| && SeparatorAt(r, j) ensures SeparatorAt(t, j) {
        assert r[j + 1] == '>';
      }
    }
  }

  /** The segments the compile pipeline turns into steps, in payload order. */
  function Segments(payload: string): seq<string> {
    AddParensAll(DropEmpty(TrimAll(SplitPipes(payload))))
  }

  /**
   * There are at most as many segments as `|>`-separated parts, each is
   * normalised, and none holds a line terminator when the payload holds none.
   */
  lemma SegmentsSpec(payload: string)
    ensures |Segments(payload)| <= |SplitPipes(payload)|
    ensures forall k :: 0 <= k < |Segments(payload)| ==> Normal(Segments(payload)[k])
    ensures NoLineTerminator(payload) ==> forall k :: 0 <= k < |Segments(payload)| ==> NoLineTerminator(Segments(payload)[k])
  {
    var parts := SplitPipes(payload);
    var trimmed := TrimAll(parts);
    var kept := DropEmpty(trimmed);
    DropEmptySpec(trimmed);
    var segs := AddParensAll(kept);
    forall k | 0 <= k < |segs| ensures Normal(segs[k]) && (NoLineTerminator(payload) ==> NoLineTerminator(segs[k])) {
      assert kept[k] in trimmed;
      var j :| 0 <= j < |trimmed| && trimmed[j] == kept[k];
      PartIsNormal(parts[j]);
    }
  }

  /** A non-blank part without separators, trimmed and given its parens, is normalised. */
  lemma PartIsNormal(part: string)
    requires !HasSeparator(part) && Trim(part) != []
    ensures Normal(AddParens(Trim(part)))
    ensures NoLineTerminator(part) ==> NoLineTerminator(AddParens(Trim(part)))
  {
    TrimKeeps(part);
    AddParensKeeps(Trim(part));
  }

  lemma TrimAllAppend(a: seq<string>, b: seq<string>)
    ensures TrimAll(a + b) == TrimAll(a) + TrimAll(b)
  {
    MapAppend(Trim, a, b);
  }

  lemma AddParensAllAppend(a: seq<string>, b: seq<string>)
    requires forall k :: 0 <= k < |a| ==> a[k] != []
    requires forall k :: 0 <= k < |b| ==> b[k] != []
    ensures forall k :: 0 <= k < |a + b| ==> (a + b)[k] != []
    ensures AddParensAll(a + b) == AddParensAll(a) + AddParensAll(b)
  {
    assert forall k :: 0 <= k < |a + b| ==> (a + b)[k] == if k < |a| then a[k] else b[k - |a|];
    var l, r := AddParensAll(a + b), AddParensAll(a) + AddParensAll(b);
    assert |l| == |r|;
    forall k | 0 <= k < |l| ensures l[k] == r[k] {
      if k < |a| { assert (a + b)[k] == a[k]; } else { assert (a + b)[k] == b[k - |a|]; }
    }
  }

  /** A separator splits the segments: the segments on each side are found independently, in order. */
  lemma SegmentsAppend(a: string, b: string)
    ensures Segments(a + "|>" + b) == Segments(a) + Segments(b)
  {
    var pa, pb := SplitPipes(a), SplitPipes(b);
    SplitPipesAppend(a, b);
    TrimAllAppend(pa, pb);
    DropEmptyAppend(TrimAll(pa), TrimAll(pb));
    var ka, kb := DropEmpty(TrimAll(pa)), DropEmpty(TrimAll(pb));
    AddParensAllAppend(ka, kb);
  }

  /** A piece without separators gives one segment when it is not blank, and none when it is. */
  lemma SegmentsSingle(s: string)
    requires !HasSeparator(s)
    ensures Segments(s) == if Trim(s) == [] then [] else [AddParens(Trim(s))]
  {
    SplitPipesOfJoin([s]);
    assert TrimAll([s]) == [Trim(s)];
    assert DropEmpty([Trim(s)]) == (if Trim(s) == [] then [] else [Trim(s)]) + DropEmpty([]);
  }

  // ---------------------------------------------------------------------
  // Matching the step regex

  /**
   * With the `m` flag, `^` matches at the start and after every line
   * terminator, and `[^\(]+` needs one character that is not `(`.
   */
  predicate CanStartAt(t: string, p: nat) {
    p < |t| && (p == 0 || IsLineTerminator(t[p - 1])) && t[p] != '('
  }

  /** The first position at or after `p` where the step regex can start. */
  function MatchStart(t: string, p: nat): (r: Option<nat>)
    requires p <= |t|
    ensures r.Some? ==> p <= r.value && CanStartAt(t, r.value)
    ensures forall j {:trigger CanStartAt(t, j)} :: p <= j < (if r.Some? then r.value else |t|) ==> !CanStartAt(t, j)
    decreases |t| - p
  {
    if p == |t| then None
    else if CanStartAt(t, p) then Some(p)
    else MatchStart(t, p + 1)
  }

  /** The first `(` at or after `from`, or `|t|`. */
  function ParenFrom(t: string, from: nat): (i: nat)
    requires from <= |t|
    ensures from <= i <= |t|
    ensures i < |t| ==> t[i] == '('
    ensures forall j :: from <= j < i ==> t[j] != '('
    decreases |t| - from
  {
    if from == |t| || t[from] == '(' then from else ParenFrom(t, from + 1)
  }

  /** The first line terminator at or after `from`, or `|t|`: where `.*` stops and `$` matches. */
  function TerminatorFrom(t: string, from: nat): (i: nat)
    requires from <= |t|
    ensures from <= i <= |t|
    ensures i < |t| ==> IsLineTerminator(t[i])
    ensures forall j :: from <= j < i ==> !IsLineTerminator(t[j])
    decreases |t| - from
  {
    if from == |t| || IsLineTerminator(t[from]) then from else TerminatorFrom(t, from + 1)
  }

  /**
   * `t.match(/^([^\(]+)(.*)$/m)` read as a step: the first group is the name,
   * the second the argument text; `None` stands for the `null` match.
   */
  function MatchStep(t: string): (m: Option<Step>)
    ensures m.None? <==> forall p {:trigger CanStartAt(t, p)} :: 0 <= p < |t| ==> !CanStartAt(t, p)
    ensures m.Some? ==> WellFormed(m.value)
  {
    match MatchStart(t, 0)
    case None => None
    case Some(p) =>
      var q := ParenFrom(t, p);
      var e := TerminatorFrom(t, q);
      Some(Step(t[p..q], t[q..e]))
  }

  /**
   * What every matched step satisfies: a non-empty name with no `(`, and
   * argument text that is empty or starts with `(`.
   */
  predicate WellFormed(step: Step) {
    step.name != []
    && (forall k :: 0 <= k < |step.name| ==> step.name[k] != '(')
    && (step.argsTuple == [] || step.argsTuple[0] == '(')
  }

  /**
   * On a segment without line terminators the regex splits the segment at
   * its first `(`, and fails exactly when the segment starts with `(`.
   */
  lemma MatchStepSplits(t: string)
    requires t != [] && NoLineTerminator(t)
    ensures MatchStep(t).None? <==> t[0] == '('
    ensures MatchStep(t).Some? ==> MatchStep(t).value.name + MatchStep(t).value.argsTuple == t
  {
    forall p | 0 < p < |t| ensures !CanStartAt(t, p) {
      assert !IsLineTerminator(t[p - 1]);
    }
    if t[0] != '(' {
      assert CanStartAt(t, 0);
      var q := ParenFrom(t, 0);
      assert TerminatorFrom(t, q) == |t|;
      assert t[0..q] + t[q..|t|] == t;
    }
  }

  // ---------------------------------------------------------------------
  // The compile pipeline

  /**
   * One `.map` callback of the step regex: the segment's step, or the
   * `TypeError` raised by reading `parts[1]` when the regex finds no match.
   */
  function MatchSegment(seg: string): Result<Step, CompileError> {
    match MatchStep(seg)
    case None => Failure(MalformedStep(seg))
    case Some(step) => Success(step)
  }

  /** Matching every normalised segment in order; the first segment without a match raises. */
  function MatchAll(segs: seq<string>): (r: Result<seq<Step>, CompileError>)
    ensures r.Success? ==> |r.value| == |segs|
  {
    Traverse(MatchSegment, segs)
  }

  /**
   * Matching succeeds exactly when every segment matches, with one step per
   * segment in segment order; otherwise the error names the first segment
   * that does not match.
   */
  lemma MatchAllSpec(segs: seq<string>)
    ensures MatchAll(segs).Success? <==> forall k :: 0 <= k < |segs| ==> MatchStep(segs[k]).Some?
    ensures MatchAll(segs).Success? ==> |MatchAll(segs).value| == |segs|
    ensures MatchAll(segs).Success? ==> forall k :: 0 <= k < |segs| ==> MatchStep(segs[k]) == Some(MatchAll(segs).value[k])
    ensures MatchAll(segs).Failure? ==> exists k :: (0 <= k < |segs| && MatchAll(segs).error == MalformedStep(segs[k])
                                        && MatchStep(segs[k]).None? && forall j :: 0 <= j < k ==> MatchStep(segs[j]).Some?)
  {
    TraverseSpec(MatchSegment, segs);
    if MatchAll(segs).Failure? {
      var k :| 0 <= k < |segs| && MatchSegment(segs[k]) == Failure(MatchAll(segs).error)
        && forall j :: 0 <= j < k ==> MatchSegment(segs[j]).Success?;
      assert MatchStep(segs[k]).None?;
    }
  }

  /** The whole `close`-handler pipeline from the payload to the step list. */
  function Compile(payload: string): Result<seq<Step>, CompileError> {
    MatchAll(Segments(payload))
  }

  /** A compiled payload has at most one step per `|>`-separated part, and every step is well formed. */
  lemma CompileWellFormed(payload: string)
    ensures Compile(payload).Success? ==> |Compile(payload).value| <= |SplitPipes(payload)|
    ensures Compile(payload).Success? ==> forall k :: 0 <= k < |Compile(payload).value| ==> WellFormed(Compile(payload).value[k])
  {
    SegmentsSpec(payload);
    MatchAllSpec(Segments(payload));
  }

  /** The text of a step as it stands in the generated pipe call. */
  function StepText(step: Step): string {
    step.name + step.argsTuple
  }

  function StepTexts(steps: seq<Step>): seq<string> {
    seq(|steps|, k requires 0 <= k < |steps| => StepText(steps[k]))
  }

  /** Matching succeeds with the given steps when each segment matches as its step. */
  lemma MatchAllOf(segs: seq<string>, steps: seq<Step>)
    requires |segs| == |steps|
    requires forall k :: 0 <= k < |segs| ==> MatchStep(segs[k]) == Some(steps[k])
    ensures MatchAll(segs) == Success(steps)
  {
    TraverseOf(MatchSegment, segs, steps);
  }

  /** A single segment compiles to its own match. */
  lemma MatchAllSingle(seg: string, step: Step)
    requires MatchStep(seg) == Some(step)
    ensures MatchAll([seg]) == Success([step])
  {
    TraverseOne(MatchSegment, seg);
  }

  /**
   * The step a normalised segment without line terminators yields: its name
   * and argument text together give back the segment, and the argument
   * text is empty exactly when the segment holds no `(`, and otherwise
   * ends in `)`.
   */
  lemma StepOfSegment(seg: string, step: Step)
    requires Normal(seg) && NoLineTerminator(seg)
    requires MatchStep(seg) == Some(step)
    ensures StepText(step) == seg
    ensures step.argsTuple == [] <==> forall j :: 0 <= j < |seg| ==> seg[j] != '('
    ensures step.argsTuple == [] || step.argsTuple[|step.argsTuple| - 1] == ')'
  {
    MatchStepSplits(seg);
    assert WellFormed(step);
    assert seg == step.name + step.argsTuple;
    if step.argsTuple != [] {
      assert seg[|step.name|] == '(';
      assert seg[|seg| - 1] == step.argsTuple[|step.argsTuple| - 1];
    } else {
      assert seg == step.name;
    }
  }

  /**
   * On a payload without line terminators (the only kind the scanner
   * produces), compiling fails exactly when some normalised segment starts
   * with `(`; otherwise there is one step per segment, in segment order,
   * each step's name and argument text together give back its segment, and
   * the argument text is empty exactly when the segment holds no `(`.
   */
  lemma CompileSteps(payload: string)
    requires NoLineTerminator(payload)
    ensures Compile(payload).Success? <==>
      forall k :: 0 <= k < |Segments(payload)| ==> Segments(payload)[k][0] != '('
    ensures Compile(payload).Success? ==> StepTexts(Compile(payload).value) == Segments(payload)
    ensures Compile(payload).Success? ==> forall k :: 0 <= k < |Segments(payload)| ==>
      (Compile(payload).value[k].argsTuple == [] <==>
        forall j :: 0 <= j < |Segments(payload)[k]| ==> Segments(payload)[k][j] != '(')
  {
    var segs := Segments(payload);
    var r := MatchAll(segs);
    SegmentsSpec(payload);
    MatchAllSpec(segs);
    forall k | 0 <= k < |segs| ensures MatchStep(segs[k]).None? <==> segs[k][0] == '(' {
      MatchStepSplits(segs[k]);
    }
    if r.Success? {
      var steps := r.value;
      forall k | 0 <= k < |segs|
        ensures StepTexts(steps)[k] == segs[k]
        ensures steps[k].argsTuple == [] <==> forall j :: 0 <= j < |segs[k]| ==> segs[k][j] != '('
      {
        StepOfSegment(segs[k], steps[k]);
      }
      assert |StepTexts(steps)| == |segs|;
    }
  }

  /** The steps compiled from a payload without line terminators have names and argument texts on one line. */
  lemma CompileOneLine(payload: string)
    requires NoLineTerminator(payload)
    requires Compile(payload).Success?
    ensures forall k :: 0 <= k < |Compile(payload).value| ==>
      OneLine(Compile(payload).value[k].name) && OneLine(Compile(payload).value[k].argsTuple)
  {
    var steps := Compile(payload).value;
    CompileSteps(payload);
    SegmentsSpec(payload);
    forall k | 0 <= k < |steps| ensures OneLine(steps[k].name) && OneLine(steps[k].argsTuple) {
      assert StepTexts(steps)[k] == Segments(payload)[k];
      NoLineTerminatorOneLine(steps[k].name, steps[k].argsTuple);
    }
  }

  /** A normalised segment stays free of separators with a blank on either side. */
  lemma PaddedHasNoSeparator(lead: string, seg: string, tail: string)
    requires lead == "" || lead == " "
    requires tail == "" || tail == " "
    requires Normal(seg)
    ensures !HasSeparator(lead + seg + tail)
  {
    var x := lead + seg + tail;
    forall j | 0 <= j < |x| ensures !SeparatorAt(x, j) {
      if j < |lead| {
        assert x[j] == ' ';
      } else if j + 1 < |lead| + |seg| {
        assert x[j] == seg[j - |lead|] && x[j + 1] == seg[j + 1 - |lead|];
        assert !SeparatorAt(seg, j - |lead|);
      } else if j + 1 == |lead| + |seg| {
        assert x[j] == ')';
      } else {
        assert x[j] == ' ';
      }
    }
  }

  /**
   * Joining normalised segments with ` |> ` (after an optional blank) and
   * normalising again gives back the same segments.
   */
  lemma {:induction false} SegmentsOfRejoined(segs: seq<string>, lead: string)
    requires lead == "" || lead == " "
    requires forall k :: 0 <= k < |segs| ==> Normal(segs[k])
    ensures Segments(lead + Join(segs, " |> ")) == segs
  {
    if segs == [] {
      assert lead + Join(segs, " |> ") == lead;
      SegmentsOfBlank(lead);
    } else if |segs| == 1 {
      assert lead + Join(segs, " |> ") == lead + segs[0];
      SegmentsOfLast(lead, segs[0]);
    } else {
      var more := segs[1..];
      var rest := Join(more, " |> ");
      HeadTail(segs);
      JoinCons(segs[0], more, " |> ");
      assert forall k :: 0 <= k < |more| ==> more[k] == segs[k + 1];
      SegmentsOfRejoined(more, " ");
      SegmentsOfCons(lead, segs[0], rest);
    }
  }

  /** The last re-joined segment, after an optional blank, is its own only segment. */
  lemma SegmentsOfLast(lead: string, seg: string)
    requires lead == "" || lead == " "
    requires Normal(seg)
    ensures Segments(lead + seg) == [seg]
  {
    PaddedHasNoSeparator(lead, seg, "");
    assert lead + seg + "" == lead + seg;
    SegmentsOfPadded(lead, seg, "");
  }

  /** A re-joined segment followed by ` |> ` contributes itself and leaves the rest to the remaining text. */
  lemma SegmentsOfCons(lead: string, seg: string, rest: string)
    requires lead == "" || lead == " "
    requires Normal(seg)
    ensures Segments(lead + (seg + " |> " + rest)) == [seg] + Segments(" " + rest)
  {
    RejoinedShape(lead, seg, rest);
    PaddedHasNoSeparator(lead, seg, " ");
    SegmentsOfPadded(lead, seg, " ");
    SegmentsAppend(lead + seg + " ", " " + rest);
  }

  lemma RejoinedShape(lead: string, seg: string, rest: string)
    ensures lead + (seg + " |> " + rest) == (lead + seg + " ") + "|>" + (" " + rest)
  {
    assert " |> " == " " + "|>" + " ";
  }

  /** At most one blank holds nothing to compile. */
  lemma SegmentsOfBlank(lead: string)
    requires lead == "" || lead == " "
    ensures Segments(lead) == []
  {
    assert !HasSeparator(lead) by {
      forall j | 0 <= j < |lead| ensures !SeparatorAt(lead, j) {}
    }
    AllSpaceTrim(lead);
    SegmentsSingle(lead);
  }

  /**
   * Compilation is idempotent: writing the compiled steps back as a
   * directive, one step after another separated by ` |> `, and compiling
   * that again gives the same steps.
   */
  lemma CompileRejoined(payload: string)
    requires NoLineTerminator(payload)
    requires Compile(payload).Success?
    ensures Compile(Join(StepTexts(Compile(payload).value), " |> ")) == Compile(payload)
  {
    var segs := Segments(payload);
    CompileSteps(payload);
    assert StepTexts(Compile(payload).value) == segs;
    SegmentsSpec(payload);
    SegmentsOfRejoined(segs, "");
    assert "" + Join(segs, " |> ") == Join(segs, " |> ");
    assert Segments(Join(segs, " |> ")) == segs;
  }

  /**
   * A payload compiles to no steps at all exactly when every piece between
   * separators is blank, as in `"   "` or `"|>|>"`.
   */
  lemma CompileToNothing(payload: string)
    ensures Compile(payload) == Success([]) <==>
      AllBlank(SplitPipes(payload))
  {
    SegmentsToNothing(payload);
    assert Compile(payload) == Success([]) <==> Segments(payload) == [] by {
      assert MatchAll([]) == Success([]);
    }
  }

  /** Every part consists of whitespace only. */
  predicate AllBlank(parts: seq<string>) {
    forall k :: 0 <= k < |parts| ==> AllSpace(parts[k])
  }

  /** No segments are left exactly when every `|>`-separated part is blank. */
  lemma SegmentsToNothing(payload: string)
    ensures Segments(payload) == [] <==>
      AllBlank(SplitPipes(payload))
  {
    var parts := SplitPipes(payload);
    var kept := DropEmpty(TrimAll(parts));
    TrimmedToNothing(parts);
    assert Segments(payload) == AddParensAll(kept);
    assert Segments(payload) == [] <==> kept == [] by {
      assert |AddParensAll(kept)| == |kept|;
    }
  }

  /** Trimming and filtering leaves nothing exactly when every part is blank. */
  lemma TrimmedToNothing(parts: seq<string>)
    ensures DropEmpty(TrimAll(parts)) == [] <==> AllBlank(parts)
  {
    var trimmed := TrimAll(parts);
    DropEmptyNothing(trimmed);
    forall k | 0 <= k < |parts| ensures trimmed[k] == [] <==> AllSpace(parts[k]) {
      AllSpaceTrim(parts[k]);
    }
    if AllBlank(parts) {
      assert forall k :: 0 <= k < |trimmed| ==> trimmed[k] == [];
    } else {
      var k :| 0 <= k < |parts| && !AllSpace(parts[k]);
      assert trimmed[k] != [];
    }
  }

  /** The filter leaves nothing exactly when every segment is empty. */
  lemma {:induction false} DropEmptyNothing(segs: seq<string>)
    ensures DropEmpty(segs) == [] <==> forall k :: 0 <= k < |segs| ==> segs[k] == []
  {
    if segs != [] {
      DropEmptyNothing(segs[1..]);
      assert forall k :: 1 <= k < |segs| ==> segs[k] == segs[1..][k - 1];
    }
  }

  /** A normalised segment on its own is its own only segment. */
  lemma SegmentsOfNormal(seg: string)
    requires Normal(seg)
    ensures Segments(seg) == [seg]
  {
    assert "" + seg + "" == seg;
    SegmentsOfPadded("", seg, "");
  }

  /**
   * The regex's reading of a name followed by argument text: when the name
   * is non-empty and holds no `(`, and the rest is empty or starts with `(`
   * and holds no line terminator, the name is the first group and the rest
   * the second.
   */
  lemma MatchStepAt(name: string, args: string)
    requires name != [] && forall j :: 0 <= j < |name| ==> name[j] != '('
    requires args == [] || args[0] == '('
    requires NoLineTerminator(args)
    ensures MatchStep(name + args) == Some(Step(name, args))
  {
    var t := name + args;
    assert CanStartAt(t, 0);
    assert MatchStart(t, 0) == Some(0);
    assert forall j :: 0 <= j < |name| ==> t[j] == name[j] && t[j] != '(';
    if args != [] {
      assert t[|name|] == '(';
    }
    assert ParenFrom(t, 0) == |name|;
    assert forall j :: |name| <= j < |t| ==> t[j] == args[j - |name|];
    assert TerminatorFrom(t, |name|) == |t|;
    assert t[0..|name|] == name;
    assert t[|name|..|t|] == args;
  }

  /** On a segment with no `(` the regex takes the whole segment as the name. */
  lemma MatchStepWhole(seg: string)
    requires seg != []
    requires forall j :: 0 <= j < |seg| ==> seg[j] != '('
    ensures MatchStep(seg) == Some(Step(seg, ""))
  {
    assert CanStartAt(seg, 0);
    assert MatchStart(seg, 0) == Some(0);
    assert ParenFrom(seg, 0) == |seg|;
    assert TerminatorFrom(seg, |seg|) == |seg|;
    assert seg[0..|seg|] == seg;
    assert seg[|seg|..|seg|] == "";
  }

  /**
   * A segment that ends in `)` without opening one, such as `foo)`, is kept
   * whole as the name, with empty argument text.
   */
  lemma CompileStrayParen(seg: string)
    requires Normal(seg)
    requires forall j :: 0 <= j < |seg| ==> seg[j] != '('
    ensures Compile(seg) == Success([Step(seg, "")])
  {
    SegmentsOfNormal(seg);
    MatchStepWhole(seg);
    MatchAllSingle(seg, Step(seg, ""));
  }

  /** A segment that starts with `(`, such as `(x)`, has no match and makes compilation raise. */
  lemma CompileLeadingParen(seg: string)
    requires Normal(seg) && NoLineTerminator(seg)
    requires seg[0] == '('
    ensures Compile(seg) == Failure(MalformedStep(seg))
  {
    SegmentsOfNormal(seg);
    MatchStepSplits(seg);
    TraverseOne(MatchSegment, seg);
  }

  lemma MatchAllAppend(x: seq<string>, y: seq<string>)
    ensures MatchAll(x + y) == Then(MatchAll(x), MatchAll(y))
  {
    TraverseAppend(MatchSegment, x, y);
  }

  /**
   * Compiling respects the separator: the steps of `a |> b` are the steps of
   * `a` followed by those of `b`, and the first malformed segment, reading
   * left to right, is the one reported.
   */
  lemma CompileAppend(a: string, b: string)
    ensures Compile(a + "|>" + b) == Then(Compile(a), Compile(b))
  {
    SegmentsAppend(a, b);
    MatchAllAppend(Segments(a), Segments(b));
  }

  /** A non-blank piece without separators, padded with whitespace, is one segment. */
  lemma SegmentsOfPadded(lead: string, t: string, tail: string)
    requires AllSpace(lead) && AllSpace(tail)
    requires t != [] && !IsSpace(t[0]) && !IsSpace(t[|t| - 1])
    requires !HasSeparator(lead + t + tail)
    ensures Segments(lead + t + tail) == [AddParens(t)]
  {
    TrimOf(lead, t, tail);
    SegmentsSingle(lead + t + tail);
  }

  /** The normalised segment of one step written with or without an argument list. */
  lemma SegmentsOfStep(lead: string, name: string, args: string, tail: string)
    requires AllSpace(lead) && AllSpace(tail)
    requires name != [] && !IsSpace(name[0])
    requires args == [] ==> name[|name| - 1] != ')' && !IsSpace(name[|name| - 1])
    requires args != [] ==> args[|args| - 1] == ')'
    requires !HasSeparator(lead + name + args + tail)
    ensures Segments(lead + name + args + tail) == [name + if args == [] then "()" else args]
  {
    var t := name + args;
    assert lead + name + args + tail == lead + t + tail;
    assert t[0] == name[0];
    if args == [] {
      assert t == name;
    } else {
      assert t[|t| - 1] == args[|args| - 1];
    }
    SegmentsOfPadded(lead, t, tail);
  }

  /**
   * One step surrounded by whitespace, written as a name with or without an
   * argument list, compiles to that name and that argument text, `()` when
   * none was written: `foo` gives `foo` and `()`, `foo(1, "x")` gives `foo`
   * and `(1, "x")`.
   */
  lemma CompileOneStep(lead: string, name: string, args: string, tail: string)
    requires AllSpace(lead) && AllSpace(tail)
    requires name != [] && !IsSpace(name[0])
    requires forall j :: 0 <= j < |name| ==> name[j] != '('
    requires args == [] ==> name[|name| - 1] != ')' && !IsSpace(name[|name| - 1])
    requires args != [] ==> args[0] == '(' && args[|args| - 1] == ')'
    requires NoLineTerminator(args) && !HasSeparator(lead + name + args + tail)
    ensures Compile(lead + name + args + tail) == Success([Step(name, if args == [] then "()" else args)])
  {
    var full := if args == [] then "()" else args;
    SegmentsOfStep(lead, name, args, tail);
    if args == [] {
      EmptyParensHaveNoTerminator();
    }
    MatchStepAt(name, full);
    MatchAllOf([name + full], [Step(name, full)]);
  }

  lemma EmptyParensHaveNoTerminator()
    ensures NoLineTerminator("()")
  {
    forall j | 0 <= j < 2 ensures !IsLineTerminator("()"[j]) {}
  }

  // The example lemmas below receive their texts as parameters pinned by
  // `requires` (`x == "a "`) instead of as literals in the `ensures`: the pieces
  // then stay separate terms, so the solver never has to re-associate a
  // concatenation of string literals, which it does only at great cost.
  // `CompileA`, `CompileC` and `CompileCall` are the same instance of
  // `CompileOneStep` for three different pieces.

  /** Steps keep the order in which they are written: `a |> b(1) |> c` gives `a()`, `b(1)`, `c()`. */
  lemma CompileThreeSteps(x: string, y: string, z: string)
    requires x == "a " && y == " b(1) " && z == " c"
    ensures Compile(x + "|>" + y + "|>" + z) == Success([Step("a", "()"), Step("b", "(1)"), Step("c", "()")])
  {
    CompileA(x);
    CompileCall(y);
    CompileC(z);
    CompileInOrder(x, y, z, Step("a", "()"), Step("b", "(1)"), Step("c", "()"));
  }

  /** Three one-step pieces joined by separators compile to their steps in order. */
  lemma CompileInOrder(x: string, y: string, z: string, a: Step, b: Step, c: Step)
    requires Compile(x) == Success([a]) && Compile(y) == Success([b]) && Compile(z) == Success([c])
    ensures Compile(x + "|>" + y + "|>" + z) == Success([a, b, c])
  {
    ThreePieces(x, y, z, a, b, c);
    CompileAppend(x, y + "|>" + z);
    CompileAppend(y, z);
  }

  lemma ThreePieces(x: string, y: string, z: string, a: Step, b: Step, c: Step)
    ensures x + "|>" + y + "|>" + z == x + "|>" + (y + "|>" + z)
    ensures [a] + ([b] + [c]) == [a, b, c]
  {
  }

  /** `a ` compiles to the step `a` with empty parens. */
  lemma CompileA(x: string)
    requires x == "a "
    ensures Compile(x) == Success([Step("a", "()")])
  {
    assert x == "" + "a" + "" + " ";
    assert !HasSeparator(x) by {
      forall j | 0 <= j < |x| ensures !SeparatorAt(x, j) {}
    }
    CompileOneStep("", "a", "", " ");
  }

  /** ` c` compiles to the step `c` with empty parens. */
  lemma CompileC(z: string)
    requires z == " c"
    ensures Compile(z) == Success([Step("c", "()")])
  {
    assert z == " " + "c" + "" + "";
    assert !HasSeparator(z) by {
      forall j | 0 <= j < |z| ensures !SeparatorAt(z, j) {}
    }
    CompileOneStep(" ", "c", "", "");
  }

  /** ` b(1) ` compiles to the step `b` with argument text `(1)`. */
  lemma CompileCall(y: string)
    requires y == " b(1) "
    ensures Compile(y) == Success([Step("b", "(1)")])
  {
    var args := "(1)";
    assert y == " " + "b" + args + " ";
    assert !HasSeparator(y) by {
      forall j | 0 <= j < |y| ensures !SeparatorAt(y, j) {}
    }
    assert NoLineTerminator(args) by {
      forall j | 0 <= j < |args| ensures !IsLineTerminator(args[j]) {}
    }
    CompileOneStep(" ", "b", args, " ");
  }
}
