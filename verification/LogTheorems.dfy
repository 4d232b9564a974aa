/** The main result about job logs: parsing the file of a finished run gives back what was written. */
module LogTheorems {
  import opened Results
  import Text
  import opened LogText
  import opened LogParser
  import opened LogWriter
  import opened LogRoundTrip
  import opened Sequences

  // ---- parsing line by line ----

  /** A stage's lines without the time bookkeeping. */
  function Timeless(lines: seq<string>): seq<string> {
    if lines == [] then []
    else Timeless(lines[..|lines| - 1]) + if IsTime(lines[|lines| - 1]) then [] else [lines[|lines| - 1]]
  }

  function TimelessLines(lines: seq<string>, n: string): seq<string> {
    Timeless(Bucket(lines, n))
  }

  lemma TimelessSnoc(a: seq<string>, l: string)
    ensures Timeless(a + [l]) == Timeless(a) + if IsTime(l) then [] else [l]
  {
    assert (a + [l])[..|a|] == a;
  }

  lemma SkipLine(lines: seq<string>, l: string, n: string)
    requires IsSkipped(l)
    ensures CurrentStage(lines + [l]) == CurrentStage(lines) && StageNames(lines + [l]) == StageNames(lines)
    ensures Bucket(lines + [l], n) == Bucket(lines, n)
  {
    hide IsSkipped, IsStage;
    assert (lines + [l])[..|lines|] == lines;
  }

  lemma AddStage(lines: seq<string>, name: string, n: string)
    ensures CurrentStage(lines + [STAGE_MARK + name]) == name
    ensures StageNames(lines + [STAGE_MARK + name]) == StageNames(lines) + [name]
    ensures TimelessLines(lines + [STAGE_MARK + name], n)
            == if n == name then [STAGE_MARK + name] else TimelessLines(lines, n)
  {
    hide IsSkipped, IsStage, IsTime, StageName;
    var l := STAGE_MARK + name;
    StageLine(name);
    assert (lines + [l])[..|lines|] == lines;
    TimelessSnoc([], l);
    assert [] + [l] == [l];
  }

  lemma AddTime(lines: seq<string>, l: string, n: string)
    requires IsTime(l) && !IsSkipped(l) && !IsStage(l)
    ensures CurrentStage(lines + [l]) == CurrentStage(lines) && StageNames(lines + [l]) == StageNames(lines)
    ensures TimelessLines(lines + [l], n) == TimelessLines(lines, n)
  {
    hide IsSkipped, IsStage, IsTime;
    assert (lines + [l])[..|lines|] == lines;
    TimelessSnoc(Bucket(lines, n), l);
  }

  lemma AddLine(lines: seq<string>, l: string, n: string)
    requires !IsTime(l) && !IsSkipped(l) && !IsStage(l)
    ensures CurrentStage(lines + [l]) == CurrentStage(lines) && StageNames(lines + [l]) == StageNames(lines)
    ensures TimelessLines(lines + [l], n) == TimelessLines(lines, n) + if CurrentStage(lines) == n then [l] else []
  {
    hide IsSkipped, IsStage, IsTime;
    assert (lines + [l])[..|lines|] == lines;
    TimelessSnoc(Bucket(lines, n), l);
  }

  /** Lines that begin no stage go to the current one, but for those the parsers drop. */
  lemma {:induction false} MoreLines(lines: seq<string>, more: seq<string>, n: string)
    requires NoStage(more)
    ensures CurrentStage(lines + more) == CurrentStage(lines) && StageNames(lines + more) == StageNames(lines)
    ensures TimelessLines(lines + more, n)
            == TimelessLines(lines, n) + if CurrentStage(lines) == n then Visible(more) else []
    decreases |more|
  {
    hide IsSkipped, IsStage, IsTime, TimelessLines, CurrentStage, StageNames;
    if more == [] {
      assert lines + more == lines;
    } else {
      var past, l := more[..|more| - 1], more[|more| - 1];
      MoreLines(lines, past, n);
      assert lines + more == lines + past + [l];
      if IsSkipped(l) {
        SkippedLine(lines + past, l, n);
      } else if IsTime(l) {
        AddTime(lines + past, l, n);
      } else {
        AddLine(lines + past, l, n);
      }
    }
  }

  lemma SkippedLine(lines: seq<string>, l: string, n: string)
    requires IsSkipped(l)
    ensures CurrentStage(lines + [l]) == CurrentStage(lines) && StageNames(lines + [l]) == StageNames(lines)
    ensures TimelessLines(lines + [l], n) == TimelessLines(lines, n)
  {
    hide IsSkipped, CurrentStage, StageNames, Bucket;
    SkipLine(lines, l, n);
  }

  // ---- the lines of a run ----

  /** What a stage shows of the lines an operation becomes. */
  function OpVisible(op: LogOp): seq<string> {
    match op
    case NewStep(name) => Visible(MarkedLines(STEP_MARK, name))
    case WriteLine(text, stamp) => Visible(WrittenLines(text, stamp))
    case NewStage(_, _, _, _) => []
  }

  function BodyLines(body: seq<LogOp>): seq<string> {
    if body == [] then [] else BodyLines(body[..|body| - 1]) + OpVisible(body[|body| - 1])
  }

  /** Added to the lines `before`, `lines` parses to what `ops` wrote. */
  ghost predicate Parses(lines: seq<string>, before: seq<string>, ops: seq<LogOp>) {
    && StageNames(lines) == StageNames(before) + StagesOf(ops)
    && (CurrentOf(ops).Some? ==> CurrentStage(lines) == CurrentOf(ops).value)
    && forall n :: n in StagesOf(ops) ==> TimelessLines(lines, n) == [STAGE_MARK + n] + BodyLines(Body(ops, n))
  }

  lemma EndLineIsTime(stamp: string, duration: string)
    ensures NoStage([EndLine(stamp, duration)]) && Visible([EndLine(stamp, duration)]) == []
  {
    hide IsSkipped, IsStage, IsTime, DropCR;
    TimeLine(DropCR(" EndTime: " + stamp + ", Duration: " + duration));
    assert [EndLine(stamp, duration)][..0] == [];
  }

  lemma {:induction false} NoStagesYet(ops: seq<LogOp>)
    ensures CurrentOf(ops).None? ==> StagesOf(ops) == []
  {
    if ops != [] {
      NoStagesYet(ops[..|ops| - 1]);
    }
  }

  /** Lines that show nothing. */
  lemma NothingVisible(lines: seq<string>, before: seq<string>, ops: seq<LogOp>, more: seq<string>)
    requires Parses(lines, before, ops) && NoStage(more) && Visible(more) == []
    ensures Parses(lines + more, before, ops)
  {
    hide NoStage, Visible, TimelessLines, StageNames, CurrentStage, BodyLines, Body;
    MoreLines(lines, more, "");
    forall n ensures TimelessLines(lines + more, n) == TimelessLines(lines, n) {
      MoreLines(lines, more, n);
    }
  }

  /** The lines of an operation other than the beginning of a stage. */
  lemma OpShows(open: bool, op: LogOp)
    requires IsWritable(op) && StageSurvives(op) && !op.NewStage?
    ensures NoStage(OpLines(open, op)) && Visible(OpLines(open, op)) == OpVisible(op)
  {
    hide IsSkipped, IsStage, IsStep, IsTime, DropCR, Continuation, FirstPart;
    if op.NewStep? {
      StepLine(DropCR(FirstPart(op.name)));
    } else {
      PayloadLines(op.text, op.stamp);
    }
  }

  lemma LinesParse(lines: seq<string>, before: seq<string>, ops: seq<LogOp>, op: LogOp, more: seq<string>)
    requires Parses(lines, before, ops) && !op.NewStage?
    requires NoStage(more) && Visible(more) == OpVisible(op)
    ensures Parses(lines + more, before, ops + [op])
  {
    hide NoStage, Visible, TimelessLines, StageNames, CurrentStage, BodyLines, Body, CurrentOf, StagesOf, OpVisible;
    OpSnoc(ops, op, "");
    MoreLines(lines, more, "");
    NoStagesYet(ops);
    assert StagesOf(ops) + [] == StagesOf(ops);
    forall n | n in StagesOf(ops)
      ensures TimelessLines(lines + more, n) == [STAGE_MARK + n] + BodyLines(Body(ops + [op], n))
    {
      MoreLines(lines, more, n);
      OpSnoc(ops, op, n);
      BodyLinesSnoc(Body(ops, n), op);
    }
  }

  lemma BodyLinesSnoc(body: seq<LogOp>, op: LogOp)
    ensures BodyLines(body + [op]) == BodyLines(body) + OpVisible(op)
  {
    assert (body + [op])[..|body|] == body;
  }

  lemma StageLinesParse(lines: seq<string>, name: string, stamp: string, n: string)
    requires IsName(name)
    ensures var c := lines + StageOpLines(name, stamp);
            && CurrentStage(c) == name && StageNames(c) == StageNames(lines) + [name]
            && TimelessLines(c, n) == if n == name then [STAGE_MARK + n] else TimelessLines(lines, n)
  {
    hide IsStage, IsTime, StageNames, CurrentStage, DropCR, Timeless, Bucket, IsName, Continuation, FirstPart;
    NameIff(name);
    BlankIsSkipped();
    SkipLine(lines, "", n);
    AddStage(lines + [""], name, n);
    TimeLine(DropCR(" StartTime: " + stamp));
    AddTime(lines + [""] + [STAGE_MARK + name], StartLine(stamp), n);
    assert lines + StageOpLines(name, stamp) == lines + [""] + [STAGE_MARK + name] + [StartLine(stamp)];
  }

  lemma BlankIsSkipped()
    ensures IsSkipped("")
  {
  }

  lemma NoBodyLines()
    ensures BodyLines([]) == []
  {
  }

  lemma StageParses(lines: seq<string>, before: seq<string>, ops: seq<LogOp>, op: LogOp)
    requires Parses(lines, before, ops) && op.NewStage? && IsName(op.name)
    ensures Parses(lines + StageOpLines(op.name, op.stamp), before, ops + [op])
  {
    hide TimelessLines, StageNames, CurrentStage, StageOpLines, BodyLines, Body, CurrentOf, StagesOf, IsName;
    var c := lines + StageOpLines(op.name, op.stamp);
    OpSnoc(ops, op, "");
    StageLinesParse(lines, op.name, op.stamp, "");
    NoBodyLines();
    forall n | n in StagesOf(ops + [op])
      ensures TimelessLines(c, n) == [STAGE_MARK + n] + BodyLines(Body(ops + [op], n))
    {
      StageLinesParse(lines, op.name, op.stamp, n);
      OpSnoc(ops, op, n);
    }
  }

  lemma OpParses(lines: seq<string>, before: seq<string>, ops: seq<LogOp>, op: LogOp)
    requires Parses(lines, before, ops) && IsWritable(op) && StageSurvives(op)
    ensures Parses(lines + OpLines(CurrentOf(ops).Some?, op), before, ops + [op])
  {
    hide Parses, EndLine, StageOpLines, OpVisible, Visible, NoStage, Continuation, WrittenLines, MarkedLines, IsStamp;
    hide IsName;
    if op.NewStage? {
      var stage := StageOpLines(op.name, op.stamp);
      if CurrentOf(ops).Some? {
        var end := [EndLine(op.endStamp, op.duration)];
        EndLineIsTime(op.endStamp, op.duration);
        NothingVisible(lines, before, ops, end);
        StageParses(lines + end, before, ops, op);
        assert lines + end + stage == lines + (end + stage);
      } else {
        StageParses(lines, before, ops, op);
        assert [] + stage == stage;
      }
    } else {
      OpShows(CurrentOf(ops).Some?, op);
      LinesParse(lines, before, ops, op, OpLines(CurrentOf(ops).Some?, op));
    }
  }

  lemma {:induction false} RenderedParses(before: seq<string>, first: string, ops: seq<LogOp>)
    requires IsSkipped(first) && AllWritable(ops) && StagesSurvive(ops)
    ensures Parses(before + [first] + Rendered(ops), before, ops)
  {
    hide IsSkipped, OpLines, IsWritable, StageSurvives, Parses;
    if ops == [] {
      assert before + [first] + Rendered(ops) == before + [first];
      FirstLineParses(before, first);
    } else {
      var past, op := ops[..|ops| - 1], ops[|ops| - 1];
      RenderedParses(before, first, past);
      OpParses(before + [first] + Rendered(past), before, past, op);
      assert ops == past + [op];
      assert before + [first] + Rendered(ops)
          == before + [first] + Rendered(past) + OpLines(CurrentOf(past).Some?, op);
    }
  }

  lemma FirstLineParses(before: seq<string>, first: string)
    requires IsSkipped(first)
    ensures Parses(before + [first], before, [])
  {
    hide IsSkipped, StageNames, CurrentStage;
    SkipLine(before, first, "");
    assert StageNames(before) + [] == StageNames(before);
  }

  lemma JobLinesAreSkipped(started: string, finished: string, duration: string)
    requires IsStamp(started) && IsStamp(finished)
    ensures IsSkipped(DropCR("[Job] Started on " + started))
    ensures IsSkipped(DropCR(FinishedText(finished, duration)))
  {
    var a, b := DropCR("[Job] Started on " + started), DropCR(FinishedText(finished, duration));
    assert a[..5] == JOB_MARK;
    assert b[..5] == JOB_MARK;
  }

  /** The lines after the last operation: the end of the open stage, if any, and the finish. */
  function Tail(open: bool, finished: string, duration: string): seq<string> {
    (if open then [EndLine(finished, duration)] else []) + ["", DropCR(FinishedText(finished, duration)), ""]
  }

  lemma TailShowsNothing(open: bool, started: string, finished: string, duration: string)
    requires IsStamp(started) && IsStamp(finished)
    ensures NoStage(Tail(open, finished, duration)) && Visible(Tail(open, finished, duration)) == []
  {
    hide DropCR, FinishedText, EndLine, IsSkipped, IsTime;
    var last := DropCR(FinishedText(finished, duration));
    JobLinesAreSkipped(started, finished, duration);
    BlankIsSkipped();
    EndLineIsTime(finished, duration);
    SkippedShowNothing(["", last, ""]);
    VisibleAppend(if open then [EndLine(finished, duration)] else [], ["", last, ""]);
  }

  lemma {:induction false} SkippedShowNothing(lines: seq<string>)
    requires forall i :: 0 <= i < |lines| ==> IsSkipped(lines[i])
    ensures NoStage(lines) && Visible(lines) == []
  {
    hide IsSkipped, IsTime;
    if lines != [] {
      SkippedShowNothing(lines[..|lines| - 1]);
    }
  }

  lemma FileLinesAre(before: seq<string>, ops: seq<LogOp>, started: string, finished: string, duration: string)
    ensures before + FileLines(ops, started, finished, duration)
            == before + [DropCR("[Job] Started on " + started)] + Rendered(ops)
               + Tail(CurrentOf(ops).Some?, finished, duration)
  {
    hide DropCR, Rendered, EndLine, FinishedText;
  }

  lemma FileParses(before: seq<string>, ops: seq<LogOp>, started: string, finished: string, duration: string)
    requires AllWritable(ops) && StagesSurvive(ops) && IsStamp(started) && IsStamp(finished)
    ensures Parses(before + FileLines(ops, started, finished, duration), before, ops)
  {
    hide IsSkipped, Parses, DropCR, FinishedText, Rendered, EndLine, IsWritable, StageSurvives, FileLines, Tail;
    var first := DropCR("[Job] Started on " + started);
    JobLinesAreSkipped(started, finished, duration);
    RenderedParses(before, first, ops);
    TailShowsNothing(CurrentOf(ops).Some?, started, finished, duration);
    NothingVisible(before + [first] + Rendered(ops), before, ops, Tail(CurrentOf(ops).Some?, finished, duration));
    FileLinesAre(before, ops, started, finished, duration);
  }

  // ---- the stages a log shows ----

  /** The stages the lines of an operation begin. */
  function SeenStages(op: LogOp): seq<string> {
    match op
    case NewStage(name, _, _, _) => [DropCR(FirstPart(name))] + StageNames(Continuation(name))
    case NewStep(name) => StageNames(Continuation(name))
    case WriteLine(text, _) => StageNames(Continuation(text))
  }

  function AllSeenStages(ops: seq<LogOp>): seq<string> {
    if ops == [] then [] else AllSeenStages(ops[..|ops| - 1]) + SeenStages(ops[|ops| - 1])
  }

  lemma OpStageNames(open: bool, op: LogOp)
    requires IsWritable(op)
    ensures StageNames(OpLines(open, op)) == SeenStages(op)
  {
    hide IsSkipped, IsStage, StageNames, DropCR, EndLine, StageOpLines, Continuation, FirstPart;
    match op
    case NewStage(name, endStamp, duration, stamp) =>
      StageOpNames(name, stamp);
      if open {
        EndLineIsTime(endStamp, duration);
        NoStageNames([EndLine(endStamp, duration)]);
        StageNamesAppend([EndLine(endStamp, duration)], StageOpLines(name, stamp));
      } else {
        assert [] + StageOpLines(name, stamp) == StageOpLines(name, stamp);
      }
    case NewStep(name) =>
      var first := STEP_MARK + DropCR(FirstPart(name));
      StepLine(DropCR(FirstPart(name)));
      NoStageNames([first]);
      StageNamesAppend([first], Continuation(name));
    case WriteLine(text, stamp) =>
      PayloadLines(text, stamp);
      var first := [WrittenLines(text, stamp)[0]];
      NoStageNames(first);
      StageNamesAppend(first, Continuation(text));
  }

  lemma StageOpNames(name: string, stamp: string)
    ensures StageNames(StageOpLines(name, stamp)) == [DropCR(FirstPart(name))] + StageNames(Continuation(name))
  {
    hide IsSkipped, IsStage, IsTime, StageNames, DropCR, StartLine, Continuation, FirstPart, CurrentStage;
    hide TimelessLines;
    var mark, more := STAGE_MARK + DropCR(FirstPart(name)), Continuation(name);
    NoLinesNoStages();
    BlankIsSkipped();
    SkippedLine([], "", "");
    AddStage([""], DropCR(FirstPart(name)), "");
    StartLineIsTime(stamp);
    NoStageNames([StartLine(stamp)]);
    StageNamesAppend([""] + [mark], more);
    StageNamesAppend([""] + [mark] + more, [StartLine(stamp)]);
    assert [] + [""] == [""];
    assert StageOpLines(name, stamp) == [""] + [mark] + more + [StartLine(stamp)];
  }

  lemma StartLineIsTime(stamp: string)
    ensures NoStage([StartLine(stamp)])
  {
    hide IsSkipped, IsStage, IsTime, DropCR;
    TimeLine(DropCR(" StartTime: " + stamp));
  }

  lemma NoLinesNoStages()
    ensures StageNames([]) == []
  {
  }

  lemma {:induction false} RenderedStageNames(ops: seq<LogOp>)
    requires AllWritable(ops)
    ensures StageNames(Rendered(ops)) == AllSeenStages(ops)
  {
    hide StageNames, OpLines, IsWritable, SeenStages;
    if ops == [] {
      NoLinesNoStages();
    } else {
      var past, op := ops[..|ops| - 1], ops[|ops| - 1];
      RenderedStageNames(past);
      OpStageNames(CurrentOf(past).Some?, op);
      StageNamesAppend(Rendered(past), OpLines(CurrentOf(past).Some?, op));
    }
  }

  /** Whatever was written, the stages of the file are those of `before` and those the operations begin. */
  lemma FileStageNames(before: seq<string>, ops: seq<LogOp>, started: string, finished: string, duration: string)
    requires AllWritable(ops) && IsStamp(started) && IsStamp(finished)
    ensures StageNames(before + FileLines(ops, started, finished, duration)) == StageNames(before) + AllSeenStages(ops)
  {
    hide IsSkipped, DropCR, FinishedText, Rendered, EndLine, IsWritable, FileLines, Tail, StageNames, AllSeenStages;
    var first, tail := DropCR("[Job] Started on " + started), Tail(CurrentOf(ops).Some?, finished, duration);
    JobLinesAreSkipped(started, finished, duration);
    SkippedLine(before, first, "");
    RenderedStageNames(ops);
    TailShowsNothing(CurrentOf(ops).Some?, started, finished, duration);
    NoStageNames(tail);
    FileLinesAre(before, ops, started, finished, duration);
    StageNamesAppend(before + [first], Rendered(ops));
    StageNamesAppend(before + [first] + Rendered(ops), tail);
  }

  /** They are the stages begun exactly when all of them survive. */
  lemma {:induction false} SeenAreBegunIff(ops: seq<LogOp>)
    ensures |AllSeenStages(ops)| >= |StagesOf(ops)|
    ensures AllSeenStages(ops) == StagesOf(ops) <==> StagesSurvive(ops)
  {
    hide StageNames, Continuation, StageSurvives, SeenStages, NoStage;
    if ops != [] {
      var past, op := ops[..|ops| - 1], ops[|ops| - 1];
      SeenAreBegunIff(past);
      assert ops == past + [op];
      var begun := if op.NewStage? then [op.name] else [];
      SeenIsBegunIff(op);
      SameParts(AllSeenStages(past), SeenStages(op), StagesOf(past), begun);
    }
  }

  lemma SeenIsBegunIff(op: LogOp)
    ensures var begun := if op.NewStage? then [op.name] else [];
            |SeenStages(op)| >= |begun| && (SeenStages(op) == begun <==> StageSurvives(op))
  {
    hide StageNames, Continuation, NoStage, DropCR, FirstPart, IsName;
    match op
    case NewStage(name, _, _, _) =>
      NoLinesNoStages();
      SeenNameIff(name, StageNames(Continuation(name)));
    case NewStep(name) => NoStageNames(Continuation(name));
    case WriteLine(text, _) => NoStageNames(Continuation(text));
  }

  lemma SeenNameIff(name: string, more: seq<string>)
    requires Continuation(name) == [] ==> more == []
    ensures [DropCR(FirstPart(name))] + more == [name] <==> IsName(name)
  {
    hide Continuation, DropCR, FirstPart;
    NameIff(name);
    if [DropCR(FirstPart(name))] + more == [name] {
      assert ([DropCR(FirstPart(name))] + more)[0] == name;
    }
  }

  // ---- the steps of a stage ----

  lemma {:induction false} TimelessSteps(lines: seq<string>, s: string)
    ensures StepNames(Timeless(lines)) == StepNames(lines)
    ensures CurrentStep(Timeless(lines)) == CurrentStep(lines)
    ensures StepBucket(Timeless(lines), s) == StepBucket(lines, s)
  {
    hide IsTime, IsStep, StepName;
    if lines != [] {
      var past, l := lines[..|lines| - 1], lines[|lines| - 1];
      TimelessSteps(past, s);
      if IsTime(l) {
        assert Timeless(past) + [] == Timeless(past);
      } else {
        assert (Timeless(past) + [l])[..|Timeless(past)|] == Timeless(past);
      }
    }
  }

  /** The steps the lines of an operation begin. */
  function SeenSteps(op: LogOp): seq<string> {
    match op
    case NewStage(_, _, _, _) => []
    case NewStep(name) => [DropCR(FirstPart(name))] + StepNames(Visible(Continuation(name)))
    case WriteLine(text, _) => StepNames(Visible(Continuation(text)))
  }

  function AllSeenSteps(body: seq<LogOp>): seq<string> {
    if body == [] then [] else AllSeenSteps(body[..|body| - 1]) + SeenSteps(body[|body| - 1])
  }

  lemma OpStepNames(op: LogOp)
    requires IsWritable(op)
    ensures StepNames(OpVisible(op)) == SeenSteps(op)
  {
    hide IsSkipped, IsTime, IsStep, IsStage, StepName, StepNames, DropCR, Continuation, Visible, FirstPart;
    NoLinesNoSteps();
    match op
    case NewStage(_, _, _, _) =>
    case NewStep(name) =>
      var first := STEP_MARK + DropCR(FirstPart(name));
      VisibleMark(name);
      StepNameSnoc([], first);
      assert [] + [first] == [first];
      StepNamesAppend([first], Visible(Continuation(name)));
    case WriteLine(text, stamp) =>
      var first := WrittenLines(text, stamp)[0];
      VisibleFirst(text, stamp);
      StepNameSnoc([], first);
      assert [] + [first] == [first];
      StepNamesAppend([first], Visible(Continuation(text)));
  }

  lemma VisibleMark(name: string)
    ensures var first := STEP_MARK + DropCR(FirstPart(name));
            && !IsTime(first) && IsStep(first) && StepName(first) == DropCR(FirstPart(name))
            && Visible(MarkedLines(STEP_MARK, name)) == [first] + Visible(Continuation(name))
  {
    hide IsSkipped, IsTime, IsStep, IsStage, StepName, DropCR, Continuation, FirstPart;
    var first := STEP_MARK + DropCR(FirstPart(name));
    StepLine(DropCR(FirstPart(name)));
    VisibleAppend([first], Continuation(name));
    assert [first][..0] == [];
  }

  lemma VisibleFirst(text: string, stamp: string)
    requires IsStamp(stamp)
    ensures var first := WrittenLines(text, stamp)[0];
            && !IsStep(first) && !IsTime(first)
            && Visible(WrittenLines(text, stamp)) == [first] + Visible(Continuation(text))
  {
    hide IsSkipped, IsTime, IsStep, Continuation, Stamped, Visible, IsPlain, FirstPart, DropCR, IsStamp;
    var first := WrittenLines(text, stamp)[0];
    PayloadLines(text, stamp);
    VisibleAppend([first], Continuation(text));
    PlainIsVisible(first);
  }

  lemma PlainIsVisible(l: string)
    requires IsPlain(l)
    ensures Visible([l]) == [l] && !IsStep(l) && !IsTime(l)
  {
    hide IsSkipped, IsTime, IsStep, IsStage;
    assert [l][..0] == [];
  }

  lemma {:induction false} BodyStepNames(n: string, body: seq<LogOp>)
    requires AllWritable(body)
    ensures StepNames([STAGE_MARK + n] + BodyLines(body)) == AllSeenSteps(body)
  {
    hide StepNames, IsWritable, OpVisible, SeenSteps, IsStep, IsTime, IsStage, IsSkipped;
    var mark := [STAGE_MARK + n];
    if body == [] {
      StageLine(n);
      NoLinesNoSteps();
      StepNameSnoc([], STAGE_MARK + n);
      assert [] + mark == mark == mark + BodyLines(body);
    } else {
      var past, op := body[..|body| - 1], body[|body| - 1];
      BodyStepNames(n, past);
      OpStepNames(op);
      StepNamesAppend(mark + BodyLines(past), OpVisible(op));
      assert mark + BodyLines(body) == mark + BodyLines(past) + OpVisible(op);
    }
  }

  lemma {:induction false} SeenStepsIff(body: seq<LogOp>)
    ensures |AllSeenSteps(body)| >= |StepsOf(body)|
    ensures AllSeenSteps(body) == StepsOf(body) <==> StepsSurvive(body)
  {
    hide StepNames, Continuation, StepSurvives, SeenSteps, NoStep;
    if body != [] {
      var past, op := body[..|body| - 1], body[|body| - 1];
      SeenStepsIff(past);
      assert body == past + [op];
      var begun := if op.NewStep? then [op.name] else [];
      SeenStepIff(op);
      SameParts(AllSeenSteps(past), SeenSteps(op), StepsOf(past), begun);
    }
  }

  lemma SeenStepIff(op: LogOp)
    ensures var begun := if op.NewStep? then [op.name] else [];
            |SeenSteps(op)| >= |begun| && (SeenSteps(op) == begun <==> StepSurvives(op))
  {
    hide StepNames, Continuation, NoStep, DropCR, FirstPart, IsName;
    match op
    case NewStage(_, _, _, _) =>
    case NewStep(name) =>
      NoLinesNoSteps();
      SeenNameIff(name, StepNames(Visible(Continuation(name))));
    case WriteLine(text, _) =>
      hide Visible;
      NoStepNames(Continuation(text));
  }

  // ---- the lines of a step ----

  /** Lines that begin no step go to the current one. */
  lemma {:induction false} MoreStepLines(lines: seq<string>, more: seq<string>, s: string)
    requires forall i :: 0 <= i < |more| ==> !IsStep(more[i]) && !IsTime(more[i])
    ensures CurrentStep(lines + more) == CurrentStep(lines)
    ensures StepBucket(lines + more, s) == StepBucket(lines, s) + if CurrentStep(lines) == Some(s) then more else []
    decreases |more|
  {
    hide IsStep, IsTime, StepName;
    if more == [] {
      assert lines + more == lines;
    } else {
      var past, l := more[..|more| - 1], more[|more| - 1];
      MoreStepLines(lines, past, s);
      assert (lines + more)[..|lines + more| - 1] == lines + past;
    }
  }

  lemma StepMarkLine(lines: seq<string>, name: string, s: string)
    ensures CurrentStep(lines + [STEP_MARK + name]) == Some(name)
    ensures StepBucket(lines + [STEP_MARK + name], s) == if name == s then [] else StepBucket(lines, s)
  {
    hide IsStep, IsTime, IsSkipped, IsStage, StepName;
    StepLine(name);
    assert (lines + [STEP_MARK + name])[..|lines|] == lines;
  }

  lemma {:induction false} BodyStepLines(n: string, body: seq<LogOp>, s: string)
    requires AllWritable(body) && StepsSurvive(body) && forall i :: 0 <= i < |body| ==> !body[i].NewStage?
    ensures var lines := [STAGE_MARK + n] + BodyLines(body);
            CurrentStep(lines) == CurrentStepOf(body) && StepBucket(lines, s) == VisibleLines(StepBody(body, s))
  {
    hide IsWritable, StepSurvives, OpVisible, CurrentStep, StepBucket, VisibleLines, StepBody, CurrentStepOf;
    var mark := [STAGE_MARK + n];
    if body == [] {
      assert mark + BodyLines(body) == mark;
      StageMarkIsNoStep(n, s);
    } else {
      var past, op := body[..|body| - 1], body[|body| - 1];
      BodyStepLines(n, past, s);
      assert body == past + [op];
      BodyOpSnoc(past, op, s);
      var lines := mark + BodyLines(past);
      assert mark + BodyLines(body) == lines + OpVisible(op);
      OpStepLines(lines, past, op, s);
    }
  }

  lemma StageMarkIsNoStep(n: string, s: string)
    ensures CurrentStep([STAGE_MARK + n]) == CurrentStepOf([])
    ensures StepBucket([STAGE_MARK + n], s) == VisibleLines(StepBody([], s)) == []
  {
    hide IsStage, IsSkipped, IsStep, IsTime;
    StageLine(n);
    assert [STAGE_MARK + n][..0] == [];
  }

  lemma OpStepLines(lines: seq<string>, past: seq<LogOp>, op: LogOp, s: string)
    requires IsWritable(op) && StepSurvives(op) && !op.NewStage?
    requires CurrentStep(lines) == CurrentStepOf(past) && StepBucket(lines, s) == VisibleLines(StepBody(past, s))
    ensures var r := lines + OpVisible(op);
            && CurrentStep(r) == CurrentStepOf(past + [op])
            && StepBucket(r, s) == VisibleLines(StepBody(past + [op], s))
  {
    hide CurrentStep, StepBucket, VisibleLines, StepBody, CurrentStepOf, OpVisible, NoStep, Continuation, IsName;
    hide IsStamp;
    BodyOpSnoc(past, op, s);
    NoVisibleLines();
    if op.NewStep? {
      MarkStepLines(lines, op, s);
    } else {
      PayloadStepLines(lines, op, s);
      VisibleLinesSnoc(StepBody(past, s), op);
      assert StepBody(past, s) + [] == StepBody(past, s) && StepBucket(lines, s) + [] == StepBucket(lines, s);
    }
  }

  lemma MarkStepLines(lines: seq<string>, op: LogOp, s: string)
    requires op.NewStep? && IsName(op.name)
    ensures var r := lines + OpVisible(op);
            && CurrentStep(r) == Some(op.name)
            && StepBucket(r, s) == if op.name == s then [] else StepBucket(lines, s)
  {
    hide CurrentStep, StepBucket, IsStep, IsTime, IsSkipped, IsName, Continuation, FirstPart, DropCR;
    NameIff(op.name);
    VisibleMark(op.name);
    VisibleNothing();
    StepMarkLine(lines, op.name, s);
    assert lines + ([STEP_MARK + op.name] + []) == lines + [STEP_MARK + op.name];
  }

  lemma PayloadStepLines(lines: seq<string>, op: LogOp, s: string)
    requires op.WriteLine? && IsStamp(op.stamp) && NoStep(Continuation(op.text))
    ensures var more := Visible(WrittenLines(op.text, op.stamp));
            && OpVisible(op) == more
            && CurrentStep(lines + more) == CurrentStep(lines)
            && StepBucket(lines + more, s) == StepBucket(lines, s) + if CurrentStep(lines) == Some(s) then more else []
  {
    hide CurrentStep, StepBucket, IsStep, IsTime, IsSkipped, Visible, Continuation, Stamped, FirstPart, DropCR, IsStamp;
    VisibleFirst(op.text, op.stamp);
    VisibleLinesAre(Continuation(op.text));
    MoreStepLines(lines, OpVisible(op), s);
  }

  lemma VisibleNothing()
    ensures Visible([]) == []
  {
  }

  lemma NoVisibleLines()
    ensures VisibleLines([]) == []
  {
  }

  lemma VisibleLinesSnoc(ops: seq<LogOp>, op: LogOp)
    requires op.WriteLine?
    ensures VisibleLines(ops + [op]) == VisibleLines(ops) + Visible(WrittenLines(op.text, op.stamp))
  {
    assert (ops + [op])[..|ops|] == ops;
  }

  /** A step shows all lines written to it exactly when all of them survive. */
  lemma {:induction false} VisibleAreAllIff(ops: seq<LogOp>)
    requires AllWritable(ops)
    ensures |AllLines(ops)| >= |VisibleLines(ops)|
    ensures AllLines(ops) == VisibleLines(ops) <==> LinesSurvive(ops)
  {
    hide IsWritable, WrittenLines, Visible, AllVisible, Continuation;
    if ops != [] {
      var past, op := ops[..|ops| - 1], ops[|ops| - 1];
      VisibleAreAllIff(past);
      assert ops == past + [op];
      var written, shown := if op.WriteLine? then WrittenLines(op.text, op.stamp) else [],
                            if op.WriteLine? then Visible(WrittenLines(op.text, op.stamp)) else [];
      if op.WriteLine? { PayloadShownIff(op); }
      SameParts(AllLines(past), written, VisibleLines(past), shown);
    }
  }

  lemma PayloadShownIff(op: LogOp)
    requires op.WriteLine? && IsWritable(op)
    ensures var written := WrittenLines(op.text, op.stamp);
            |written| >= |Visible(written)| && (written == Visible(written) <==> AllVisible(Continuation(op.text)))
  {
    hide Continuation, Visible, IsSkipped, IsTime, Stamped, IsStep;
    var written, more := WrittenLines(op.text, op.stamp), Continuation(op.text);
    VisibleFirst(op.text, op.stamp);
    VisibleIsAll(written);
    VisibleIsAll(more);
    assert |written| == 1 + |more| && |Visible(written)| == 1 + |Visible(more)|;
  }

  lemma {:induction false} BodyIsWritable(ops: seq<LogOp>, n: string)
    requires AllWritable(ops)
    ensures AllWritable(Body(ops, n)) && forall i :: 0 <= i < |Body(ops, n)| ==> !Body(ops, n)[i].NewStage?
  {
    hide IsWritable;
    if ops != [] {
      BodyIsWritable(ops[..|ops| - 1], n);
    }
  }

  lemma {:induction false} StepBodyIsWritable(body: seq<LogOp>, s: string)
    requires AllWritable(body)
    ensures AllWritable(StepBody(body, s))
  {
    hide IsWritable;
    if body != [] {
      StepBodyIsWritable(body[..|body| - 1], s);
    }
  }

  // ---- the round trip ----

  /** The lines of a log that held `initial` when the run began. */
  lemma LogLines(initial: string, ops: seq<LogOp>, started: string, finished: string, duration: string)
    requires WholeLines(initial) && AllWritable(ops) && IsStamp(started) && IsStamp(finished) && '\n' !in duration
    ensures Lines(initial + FileText(ops, started, finished, duration))
            == Lines(initial) + FileLines(ops, started, finished, duration)
  {
    hide Lines, FileText, FileLines, IsWritable;
    LinesAppend(initial, FileText(ops, started, finished, duration));
    FileTextLines(ops, started, finished, duration);
  }

  /** Added to whatever log there was, the file of a finished run parses to exactly the stages begun if and
      only if all of them survive. Then the steps of each stage come back exactly if all of them survive, and
      with them each step's lines: those a step shows, and all lines written to it if they all survive. */
  lemma RoundTrip(initial: string, ops: seq<LogOp>, started: string, finished: string, duration: string)
    requires WholeLines(initial) && AllWritable(ops) && IsStamp(started) && IsStamp(finished) && '\n' !in duration
    ensures var lines := Lines(initial + FileText(ops, started, finished, duration));
            && (StageNames(lines) == StageNames(Lines(initial)) + StagesOf(ops) <==> StagesSurvive(ops))
            && (StagesSurvive(ops) ==> forall n :: n in StagesOf(ops) ==>
                  StageReadsBack(Bucket(lines, n), Body(ops, n)))
  {
    hide Lines, FileText, FileLines, IsWritable, StageNames, CurrentStage, Bucket, AllSeenStages, StagesSurvive, Body;
    hide StageReadsBack, StagesOf;
    var before, lines := Lines(initial), Lines(initial) + FileLines(ops, started, finished, duration);
    LogLines(initial, ops, started, finished, duration);
    FileStageNames(before, ops, started, finished, duration);
    SeenAreBegunIff(ops);
    assert StageNames(before) + AllSeenStages(ops) == StageNames(before) + StagesOf(ops)
        <==> AllSeenStages(ops) == StagesOf(ops)
            by { SamePrefix(StageNames(before), AllSeenStages(ops), StagesOf(ops)); }
    if StagesSurvive(ops) {
      FileParses(before, ops, started, finished, duration);
      forall n | n in StagesOf(ops) ensures StageReadsBack(Bucket(lines, n), Body(ops, n)) {
        assert TimelessLines(lines, n) == [STAGE_MARK + n] + BodyLines(Body(ops, n));
        BodyIsWritable(ops, n);
        StageReads(Bucket(lines, n), n, Body(ops, n));
      }
    }
  }

  /** What the lines of a stage show of its body. */
  ghost predicate StageReadsBack(stage: seq<string>, body: seq<LogOp>) {
    && (StepNames(stage) == StepsOf(body) <==> StepsSurvive(body))
    && (StepsSurvive(body) ==> forall s :: StepReadsBack(StepBucket(stage, s), StepBody(body, s)))
  }

  ghost predicate StepReadsBack(lines: seq<string>, body: seq<LogOp>) {
    && lines == VisibleLines(body)
    && (lines == AllLines(body) <==> LinesSurvive(body))
  }

  lemma StageReads(stage: seq<string>, n: string, body: seq<LogOp>)
    requires Timeless(stage) == [STAGE_MARK + n] + BodyLines(body)
    requires AllWritable(body) && forall i :: 0 <= i < |body| ==> !body[i].NewStage?
    ensures StageReadsBack(stage, body)
  {
    hide IsWritable, StepNames, StepBucket, StepsOf, StepsSurvive, AllSeenSteps, BodyLines, Timeless, StepBody;
    hide AllLines;
    hide VisibleLines, LinesSurvive;
    TimelessSteps(stage, "");
    BodyStepNames(n, body);
    SeenStepsIff(body);
    if StepsSurvive(body) {
      forall s ensures StepReadsBack(StepBucket(stage, s), StepBody(body, s)) {
        TimelessSteps(stage, s);
        BodyStepLines(n, body, s);
        StepBodyIsWritable(body, s);
        VisibleAreAllIff(StepBody(body, s));
      }
    }
  }

  /** The stages begun, in each the steps begun, and in each step all lines written to it. */
  ghost predicate ReadsBack(lines: seq<string>, before: seq<string>, ops: seq<LogOp>) {
    && StageNames(lines) == StageNames(before) + StagesOf(ops)
    && forall n :: n in StagesOf(ops) ==>
         && StepNames(Bucket(lines, n)) == StepsOf(Body(ops, n))
         && forall s :: s in StepsOf(Body(ops, n)) ==>
              StepBucket(Bucket(lines, n), s) == AllLines(StepBody(Body(ops, n), s))
  }

  /** Nothing that parsing would show is lost or forged. */
  predicate Survives(ops: seq<LogOp>) {
    && StagesSurvive(ops)
    && forall n :: n in StagesOf(ops) ==>
         && StepsSurvive(Body(ops, n))
         && forall s :: s in StepsOf(Body(ops, n)) ==> LinesSurvive(StepBody(Body(ops, n), s))
  }

  /** The exact condition for a log to give back what was written to it. */
  lemma ReadsBackIff(initial: string, ops: seq<LogOp>, started: string, finished: string, duration: string)
    requires WholeLines(initial) && AllWritable(ops) && IsStamp(started) && IsStamp(finished) && '\n' !in duration
    ensures ReadsBack(Lines(initial + FileText(ops, started, finished, duration)), Lines(initial), ops)
            <==> Survives(ops)
  {
    hide Lines, FileText, IsWritable, StageNames, Bucket, StepNames, StepBucket, StagesOf, StepsOf, Body, StepBody;
    hide AllLines;
    hide StagesSurvive, StepsSurvive, LinesSurvive, VisibleLines;
    RoundTrip(initial, ops, started, finished, duration);
    var lines := Lines(initial + FileText(ops, started, finished, duration));
    if StagesSurvive(ops) {
      forall n | n in StagesOf(ops) ensures StageReadsBack(Bucket(lines, n), Body(ops, n)) {
      }
    }
  }

  // ---- when the run ended ----

  lemma FinishedLineTimes(t: Times, finished: string, duration: string)
    requires ',' !in finished && ',' !in duration && IsName(duration)
    ensures var u := AddTimes(t, DropCR(FinishedText(finished, duration)), JOB_START, JOB_END);
            u.end == Some(finished) && u.duration == Some(duration)
  {
    hide Text.Split, IsName;
    var line, tail := FinishedText(finished, duration), " Duration: " + duration;
    assert DropCR(line) == line by { FinishedKeepsCR(finished, duration); }
    assert line == JOB_END + (finished + [','] + tail);
    AppendedMark(JOB_END, finished + [','] + tail);
    Text.SplitFirst(finished, ',', tail);
    Text.SplitWhole(tail, ',');
    AppendedMark(" Duration: ", duration);
  }

  lemma FinishedKeepsCR(finished: string, duration: string)
    requires IsName(duration)
    ensures DropCR(FinishedText(finished, duration)) == FinishedText(finished, duration)
  {
    var line := FinishedText(finished, duration);
    if duration == "" {
      assert line[|line| - 1] == ' ';
    } else {
      assert line[|line| - 1] == duration[|duration| - 1];
    }
  }

  /** Whatever payloads and names forge, the end and the duration of the last run are read as written. */
  lemma FinishReadsBack(initial: string, ops: seq<LogOp>, started: string, finished: string, duration: string)
    requires WholeLines(initial) && AllWritable(ops) && IsStamp(started) && IsStamp(finished)
    requires ',' !in finished && ',' !in duration && IsName(duration)
    ensures var times := TimesOf(Lines(initial + FileText(ops, started, finished, duration)), JOB_START, JOB_END);
            times.end == Some(finished) && times.duration == Some(duration)
  {
    hide Lines, FileText, IsWritable, TimesOf, AddTimes, Rendered, EndLine, FinishedText, DropCR;
    LogLines(initial, ops, started, finished, duration);
    var last := DropCR(FinishedText(finished, duration));
    var past := Lines(initial)
                + ([DropCR("[Job] Started on " + started)] + Rendered(ops)
                   + (if CurrentOf(ops).Some? then [EndLine(finished, duration)] else []) + [""]);
    assert Lines(initial) + FileLines(ops, started, finished, duration) == past + [last] + [""];
    TimesSnoc(past, last, JOB_START, JOB_END);
    TimesSnoc(past + [last], "", JOB_START, JOB_END);
    FinishedLineTimes(TimesOf(past, JOB_START, JOB_END), finished, duration);
    NoTimesAdded(TimesOf(past + [last], JOB_START, JOB_END), "", JOB_START, JOB_END);
  }

  // ---- a job run again ----

  /** What a finished run leaves is whole lines, so that another run can be added to it. */
  lemma FinishedLogIsWhole(initial: string, ops: seq<LogOp>, started: string, finished: string, duration: string)
    ensures WholeLines(initial + FileText(ops, started, finished, duration))
  {
    hide Concat, Buffer, FinishedText;
    var text := initial + FileText(ops, started, finished, duration);
    assert FinishedEntry(finished, duration)[|FinishedEntry(finished, duration)| - 1] == '\n';
    assert text[|text| - 1] == '\n';
  }

  predicate EndsLine(e: string) {
    e != "" && e[|e| - 1] == '\n'
  }

  lemma {:induction false} EntriesEndLines(ops: seq<LogOp>, i: nat)
    requires i < |Entries(ops)|
    ensures EndsLine(Entries(ops)[i])
  {
    hide OpEntries, EndsLine;
    var past, op := ops[..|ops| - 1], ops[|ops| - 1];
    if i < |Entries(past)| {
      EntriesEndLines(past, i);
    } else {
      OpEntriesEndLines(CurrentOf(past).Some?, op, i - |Entries(past)|);
    }
  }

  lemma OpEntriesEndLines(open: bool, op: LogOp, i: nat)
    requires i < |OpEntries(open, op)|
    ensures EndsLine(OpEntries(open, op)[i])
  {
    hide Terminated;
    match op
    case NewStage(name, endStamp, duration, stamp) =>
      TerminatedEndsLine(TIME_MARK + (" EndTime: " + endStamp + ", Duration: " + duration));
      TerminatedEndsLine(STAGE_MARK + name);
      TerminatedEndsLine(TIME_MARK + (" StartTime: " + stamp));
    case NewStep(name) => TerminatedEndsLine(STEP_MARK + name);
    case WriteLine(text, stamp) => TerminatedEndsLine(text);
  }

  lemma TerminatedEndsLine(text: string)
    ensures EndsLine(Terminated(text))
  {
  }

  /** So does a run that stopped half-way, as long as entries reach the file whole. */
  lemma UnfinishedLogIsWhole(initial: string, ops: seq<LogOp>, started: string, finished: string, duration: string,
                             flushed: nat)
    requires WholeLines(initial) && flushed <= |Buffer(ops, started, finished, duration)|
    ensures WholeLines(initial + Concat(Buffer(ops, started, finished, duration)[..flushed]))
  {
    var buffer := Buffer(ops, started, finished, duration);
    if flushed == 0 {
      assert initial + Concat(buffer[..0]) == initial;
    } else {
      hide Concat, Entries, EndEntry, StartedEntry;
      BufferEndsLines(ops, started, finished, duration, flushed - 1);
      var e := buffer[flushed - 1];
      assert buffer[..flushed] == buffer[..flushed - 1] + [e];
      ConcatAppend(buffer[..flushed - 1], [e]);
      ConcatOne(e);
    }
  }

  lemma BufferEndsLines(ops: seq<LogOp>, started: string, finished: string, duration: string, i: nat)
    requires i < |Buffer(ops, started, finished, duration)|
    ensures EndsLine(Buffer(ops, started, finished, duration)[i])
  {
    hide Entries;
    if 1 <= i <= |Entries(ops)| {
      EntriesEndLines(ops, i - 1);
    }
  }

  predicate BeginsWithStage(ops: seq<LogOp>) {
    ops != [] ==> ops[0].NewStage?
  }

  /** Lines that begin other stages, when another stage is the current one. */
  lemma {:induction false} OthersKeep(lines: seq<string>, more: seq<string>, n: string)
    requires n !in StageNames(more) && CurrentStage(lines) != n
    ensures Bucket(lines + more, n) == Bucket(lines, n) && CurrentStage(lines + more) != n
    decreases |more|
  {
    hide IsSkipped, IsStage, StageName, CurrentStage, Bucket;
    if more == [] {
      assert lines + more == lines;
    } else {
      var past, l := more[..|more| - 1], more[|more| - 1];
      OthersKeep(lines, past, n);
      LineSnoc(lines + past, l, n);
      assert lines + more == lines + past + [l];
    }
  }

  /** The first stage of a run ends whatever stage the earlier log ended with. */
  lemma FirstStageKeeps(lines: seq<string>, name: string, stamp: string, n: string)
    requires n != DropCR(FirstPart(name)) && n !in StageNames(Continuation(name))
    ensures Bucket(lines + StageOpLines(name, stamp), n) == Bucket(lines, n)
    ensures CurrentStage(lines + StageOpLines(name, stamp)) != n
  {
    hide IsSkipped, IsStage, StageName, CurrentStage, Bucket, StageNames, DropCR, FirstPart, Continuation, StartLine;
    var mark, more := STAGE_MARK + DropCR(FirstPart(name)), Continuation(name);
    BlankIsSkipped();
    StageLine(DropCR(FirstPart(name)));
    LineSnoc(lines, "", n);
    LineSnoc(lines + [""], mark, n);
    StartLineIsTime(stamp);
    NoStageNames([StartLine(stamp)]);
    StageNamesAppend(more, [StartLine(stamp)]);
    OthersKeep(lines + [""] + [mark], more + [StartLine(stamp)], n);
    assert lines + StageOpLines(name, stamp) == lines + [""] + [mark] + (more + [StartLine(stamp)]);
  }

  lemma {:induction false} RenderedKeeps(before: seq<string>, first: string, ops: seq<LogOp>, n: string)
    requires IsSkipped(first) && AllWritable(ops) && BeginsWithStage(ops) && n !in AllSeenStages(ops)
    ensures Bucket(before + [first] + Rendered(ops), n) == Bucket(before, n)
    ensures ops != [] ==> CurrentStage(before + [first] + Rendered(ops)) != n
  {
    hide IsSkipped, OpLines, IsWritable, StageNames, SeenStages, Bucket, CurrentStage, StagesOf, CurrentOf;
    if ops == [] {
      assert before + [first] + Rendered(ops) == before + [first];
      LineSnoc(before, first, n);
    } else {
      var past, op := ops[..|ops| - 1], ops[|ops| - 1];
      var lines, more := before + [first] + Rendered(past), OpLines(CurrentOf(past).Some?, op);
      RenderedKeeps(before, first, past, n);
      assert before + [first] + Rendered(ops) == lines + more;
      if past == [] {
        NothingOpen();
        FirstOpKeeps(lines, op, n);
      } else {
        OpStageNames(CurrentOf(past).Some?, op);
        OthersKeep(lines, more, n);
      }
    }
  }

  lemma NothingOpen()
    ensures CurrentOf([]).None?
  {
  }

  lemma FirstOpKeeps(lines: seq<string>, op: LogOp, n: string)
    requires op.NewStage? && n !in SeenStages(op)
    ensures Bucket(lines + OpLines(false, op), n) == Bucket(lines, n)
    ensures CurrentStage(lines + OpLines(false, op)) != n
  {
    hide Bucket, CurrentStage, StageOpLines, DropCR, FirstPart, Continuation, StageNames;
    FirstStageKeeps(lines, op.name, op.stamp, n);
    assert [] + StageOpLines(op.name, op.stamp) == StageOpLines(op.name, op.stamp);
  }

  lemma {:induction false} SkippedKeep(lines: seq<string>, more: seq<string>, n: string)
    requires forall i :: 0 <= i < |more| ==> IsSkipped(more[i])
    ensures Bucket(lines + more, n) == Bucket(lines, n)
    decreases |more|
  {
    hide IsSkipped, Bucket;
    if more == [] {
      assert lines + more == lines;
    } else {
      var past, l := more[..|more| - 1], more[|more| - 1];
      SkippedKeep(lines, past, n);
      SkipLine(lines + past, l, n);
      assert lines + more == lines + past + [l];
    }
  }

  /** Whatever its payloads and names are, a run that begins with a stage leaves the lines of every stage that it
      neither begins nor forges as they were, and with them its steps and times. */
  lemma RerunKeepsOtherStages(initial: string, ops: seq<LogOp>, started: string, finished: string, duration: string,
                              n: string)
    requires WholeLines(initial) && AllWritable(ops) && IsStamp(started) && IsStamp(finished) && '\n' !in duration
    requires BeginsWithStage(ops) && n !in AllSeenStages(ops)
    ensures Bucket(Lines(initial + FileText(ops, started, finished, duration)), n) == Bucket(Lines(initial), n)
    ensures StagesSurvive(ops) ==> AllSeenStages(ops) == StagesOf(ops)
  {
    hide Lines, FileText, FileLines, IsWritable, Bucket, StagesSurvive, StagesOf, Rendered, IsSkipped, CurrentStage;
    hide NoStage, DropCR, FinishedText, BeginsWithStage, StageNames, AllSeenStages, EndLine, CurrentOf;
    var before, first := Lines(initial), DropCR("[Job] Started on " + started);
    var lines, tail := before + [first] + Rendered(ops), Tail(CurrentOf(ops).Some?, finished, duration);
    LogLines(initial, ops, started, finished, duration);
    FileLinesAre(before, ops, started, finished, duration);
    JobLinesAreSkipped(started, finished, duration);
    SeenAreBegunIff(ops);
    RenderedKeeps(before, first, ops, n);
    if ops == [] {
      NothingOpen();
      BlankIsSkipped();
      assert [] + ["", DropCR(FinishedText(finished, duration)), ""] == tail;
      SkippedKeep(lines, tail, n);
    } else {
      TailShowsNothing(CurrentOf(ops).Some?, started, finished, duration);
      NoStageNames(tail);
      OthersKeep(lines, tail, n);
    }
  }

  /** A stage whose name ends in a carriage return comes back under another name. */
  lemma CarriageReturnIsLost(name: string, stamp: string, started: string, finished: string, duration: string)
    requires '\n' !in name && name != "" && name[|name| - 1] == '\r'
    requires IsStamp(stamp) && IsStamp(started) && IsStamp(finished) && '\n' !in duration
    ensures var lines := Lines(FileText([NewStage(name, stamp, duration, stamp)], started, finished, duration));
            StageNames(lines) == [name[..|name| - 1]] && StagesOf([NewStage(name, stamp, duration, stamp)]) == [name]
  {
    hide Lines, FileText, FileLines, StageNames, IsStamp, FirstPart, Continuation, Terminated;
    var op := NewStage(name, stamp, duration, stamp);
    NoLines();
    NoLinesNoStages();
    assert [op][..0] == [];
    OneLineParts(name);
    LogLines("", [op], started, finished, duration);
    FileStageNames([], [op], started, finished, duration);
    assert "" + FileText([op], started, finished, duration) == FileText([op], started, finished, duration);
    assert [] + FileLines([op], started, finished, duration) == FileLines([op], started, finished, duration);
  }

  lemma OneLineParts(name: string)
    requires '\n' !in name
    ensures FirstPart(name) == name && Continuation(name) == []
  {
    hide Lines, FirstPart, Continuation, Terminated;
    var first, rest := PayloadParts(name);
    NoNewlineParts(name, first, rest);
    NoLines();
  }
}
