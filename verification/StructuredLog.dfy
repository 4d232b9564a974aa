/** The round trip for a run given as its stages and steps, each name used once. */
module StructuredLog {
  import opened Results
  import opened LogText
  import opened LogParser
  import LogWriter
  import opened LogRoundTrip
  import opened LogTheorems
  import opened Sequences

  datatype Payload = Payload(text: string, stamp: string)

  datatype WrittenStep = WrittenStep(name: string, payloads: seq<Payload>)

  /** `preamble` is what a stage logs before its first step, such as the output of a container start. */
  datatype WrittenStage = WrittenStage(
    name: string,
    endStamp: string,
    duration: string,
    stamp: string,
    preamble: seq<Payload>,
    steps: seq<WrittenStep>)

  function LineOps(ps: seq<Payload>): seq<LogOp> {
    if ps == [] then [] else LineOps(ps[..|ps| - 1]) + [WriteLine(ps[|ps| - 1].text, ps[|ps| - 1].stamp)]
  }

  function StepOps(steps: seq<WrittenStep>): seq<LogOp> {
    if steps == [] then []
    else
      var s := steps[|steps| - 1];
      StepOps(steps[..|steps| - 1]) + ([NewStep(s.name)] + LineOps(s.payloads))
  }

  function BodyOps(stage: WrittenStage): seq<LogOp> {
    LineOps(stage.preamble) + StepOps(stage.steps)
  }

  function RunOps(stages: seq<WrittenStage>): seq<LogOp> {
    if stages == [] then []
    else
      var s := stages[|stages| - 1];
      RunOps(stages[..|stages| - 1]) + ([NewStage(s.name, s.endStamp, s.duration, s.stamp)] + BodyOps(s))
  }

  /** All lines of the payloads of a step. */
  function LinesWritten(ps: seq<Payload>): seq<string> {
    if ps == [] then []
    else LinesWritten(ps[..|ps| - 1]) + WrittenLines(ps[|ps| - 1].text, ps[|ps| - 1].stamp)
  }

  ghost predicate DistinctSteps(steps: seq<WrittenStep>) {
    forall i, j :: 0 <= i < j < |steps| ==> steps[i].name != steps[j].name
  }

  ghost predicate DistinctStages(stages: seq<WrittenStage>) {
    forall i, j :: 0 <= i < j < |stages| ==> stages[i].name != stages[j].name
  }

  function StageNamesOf(stages: seq<WrittenStage>): seq<string> {
    if stages == [] then [] else StageNamesOf(stages[..|stages| - 1]) + [stages[|stages| - 1].name]
  }

  function StepNamesOf(steps: seq<WrittenStep>): seq<string> {
    if steps == [] then [] else StepNamesOf(steps[..|steps| - 1]) + [steps[|steps| - 1].name]
  }

  // ---- what survives, stage by stage ----

  predicate NoStageIn(ps: seq<Payload>) {
    forall i :: 0 <= i < |ps| ==> NoStage(Continuation(ps[i].text))
  }

  predicate NoStepIn(ps: seq<Payload>) {
    forall i :: 0 <= i < |ps| ==> NoStep(Continuation(ps[i].text))
  }

  predicate AllVisibleIn(ps: seq<Payload>) {
    forall i :: 0 <= i < |ps| ==> AllVisible(Continuation(ps[i].text))
  }

  /** The name is one that is read as written, and no later line of a payload or step name is a stage marker. */
  predicate StageKept(stage: WrittenStage) {
    && IsName(stage.name)
    && NoStageIn(stage.preamble)
    && forall j :: 0 <= j < |stage.steps| ==> NoStageInStep(stage.steps[j])
  }

  predicate NoStageInStep(step: WrittenStep) {
    NoStage(Continuation(step.name)) && NoStageIn(step.payloads)
  }

  predicate StepsKept(stage: WrittenStage) {
    && NoStepIn(stage.preamble)
    && forall j :: 0 <= j < |stage.steps| ==> StepKept(stage.steps[j])
  }

  predicate StepKept(step: WrittenStep) {
    IsName(step.name) && NoStepIn(step.payloads)
  }

  /** No later line of a step's payload is blank or looks like a job or time line. */
  predicate LinesKept(stage: WrittenStage) {
    forall j :: 0 <= j < |stage.steps| ==> AllVisibleIn(stage.steps[j].payloads)
  }

  lemma SurviveAppend(a: seq<LogOp>, b: seq<LogOp>)
    ensures StagesSurvive(a + b) <==> StagesSurvive(a) && StagesSurvive(b)
    ensures StepsSurvive(a + b) <==> StepsSurvive(a) && StepsSurvive(b)
  {
    hide StageSurvives, StepSurvives;
    assert forall i :: 0 <= i < |a| ==> (a + b)[i] == a[i];
    assert forall i :: 0 <= i < |b| ==> (a + b)[|a| + i] == b[i];
  }

  lemma SurviveOne(op: LogOp)
    ensures StagesSurvive([op]) <==> StageSurvives(op)
    ensures StepsSurvive([op]) <==> StepSurvives(op)
  {
    assert [op][0] == op;
  }

  lemma {:induction false} LineOpsSurvive(ps: seq<Payload>)
    ensures StagesSurvive(LineOps(ps)) <==> NoStageIn(ps)
    ensures StepsSurvive(LineOps(ps)) <==> NoStepIn(ps)
  {
    hide StagesSurvive, StepsSurvive, Continuation, NoStage, NoStep;
    if ps == [] {
      NothingSurvives();
    } else {
      var past, p := ps[..|ps| - 1], ps[|ps| - 1];
      LineOpsSurvive(past);
      assert ps == past + [p];
      SurviveAppend(LineOps(past), [WriteLine(p.text, p.stamp)]);
      SurviveOne(WriteLine(p.text, p.stamp));
    }
  }

  lemma NothingSurvives()
    ensures StagesSurvive([]) && StepsSurvive([])
  {
  }

  lemma {:induction false} LinesSurviveIn(ps: seq<Payload>)
    ensures LinesSurvive(LineOps(ps)) <==> AllVisibleIn(ps)
    ensures AllLines(LineOps(ps)) == LinesWritten(ps)
  {
    hide Continuation, AllVisible, WrittenLines, LinesSurvive, AllLines;
    if ps == [] {
      NoLinesWritten();
    } else {
      var past, p := ps[..|ps| - 1], ps[|ps| - 1];
      LinesSurviveIn(past);
      assert ps == past + [p];
      LinesSurviveSnoc(LineOps(past), WriteLine(p.text, p.stamp));
    }
  }

  lemma NoLinesWritten()
    ensures LinesSurvive([]) && AllLines([]) == []
  {
  }

  lemma LinesSurviveSnoc(ops: seq<LogOp>, op: LogOp)
    requires op.WriteLine?
    ensures LinesSurvive(ops + [op]) <==> LinesSurvive(ops) && AllVisible(Continuation(op.text))
    ensures AllLines(ops + [op]) == AllLines(ops) + WrittenLines(op.text, op.stamp)
  {
    hide Continuation, AllVisible, WrittenLines;
    var r := ops + [op];
    assert r[..|ops|] == ops && r[|ops|] == op;
    assert forall i :: 0 <= i < |ops| ==> r[i] == ops[i];
  }

  lemma {:induction false} StepOpsSurvive(steps: seq<WrittenStep>)
    ensures StagesSurvive(StepOps(steps)) <==> forall j :: 0 <= j < |steps| ==> NoStageInStep(steps[j])
    ensures StepsSurvive(StepOps(steps)) <==> forall j :: 0 <= j < |steps| ==> StepKept(steps[j])
  {
    hide StagesSurvive, StepsSurvive, NoStageIn, NoStepIn, LineOps, IsName, NoStage, Continuation;
    if steps == [] {
      NothingSurvives();
    } else {
      var past, s := steps[..|steps| - 1], steps[|steps| - 1];
      StepOpsSurvive(past);
      assert steps == past + [s];
      LineOpsSurvive(s.payloads);
      SurviveOne(NewStep(s.name));
      SurviveAppend([NewStep(s.name)], LineOps(s.payloads));
      SurviveAppend(StepOps(past), [NewStep(s.name)] + LineOps(s.payloads));
    }
  }

  lemma BodyOpsSurvive(stage: WrittenStage)
    ensures IsName(stage.name) && StagesSurvive(BodyOps(stage)) <==> StageKept(stage)
    ensures StepsSurvive(BodyOps(stage)) <==> StepsKept(stage)
  {
    hide StagesSurvive, StepsSurvive, NoStageIn, NoStepIn, LineOps, StepOps, IsName, NoStageInStep;
    LineOpsSurvive(stage.preamble);
    StepOpsSurvive(stage.steps);
    SurviveAppend(LineOps(stage.preamble), StepOps(stage.steps));
  }

  lemma {:induction false} RunOpsSurvive(stages: seq<WrittenStage>)
    ensures StagesSurvive(RunOps(stages)) <==> forall k :: 0 <= k < |stages| ==> StageKept(stages[k])
  {
    hide StagesSurvive, StepsSurvive, StageKept, BodyOps, IsName;
    if stages == [] {
      NothingSurvives();
    } else {
      var past, s := stages[..|stages| - 1], stages[|stages| - 1];
      var op := NewStage(s.name, s.endStamp, s.duration, s.stamp);
      RunOpsSurvive(past);
      assert stages == past + [s];
      BodyOpsSurvive(s);
      SurviveOne(op);
      SurviveAppend([op], BodyOps(s));
      SurviveAppend(RunOps(past), [op] + BodyOps(s));
    }
  }

  // ---- steps ----

  lemma {:induction false} AddLines(b: seq<LogOp>, ps: seq<Payload>, s: string)
    ensures StepsOf(b + LineOps(ps)) == StepsOf(b) && CurrentStepOf(b + LineOps(ps)) == CurrentStepOf(b)
    ensures StepBody(b + LineOps(ps), s) == StepBody(b, s) + if CurrentStepOf(b) == Some(s) then LineOps(ps) else []
    decreases |ps|
  {
    hide StepsOf, CurrentStepOf, StepBody;
    if ps == [] {
      assert b + LineOps(ps) == b;
    } else {
      var past, op := ps[..|ps| - 1], WriteLine(ps[|ps| - 1].text, ps[|ps| - 1].stamp);
      AddLines(b, past, s);
      BodyOpSnoc(b + LineOps(past), op, s);
      assert b + LineOps(ps) == b + LineOps(past) + [op];
    }
  }

  lemma AddWholeStep(b: seq<LogOp>, step: WrittenStep, s: string)
    ensures var r := b + ([NewStep(step.name)] + LineOps(step.payloads));
            && StepsOf(r) == StepsOf(b) + [step.name]
            && StepBody(r, s) == if step.name == s then LineOps(step.payloads) else StepBody(b, s)
  {
    hide StepsOf, StepBody, CurrentStepOf, LineOps;
    BodyOpSnoc(b, NewStep(step.name), s);
    AddLines(b + [NewStep(step.name)], step.payloads, s);
    Regroup(b, [NewStep(step.name)], LineOps(step.payloads));
    assert [] + LineOps(step.payloads) == LineOps(step.payloads);
  }

  lemma PreambleHasNoSteps(ps: seq<Payload>)
    ensures StepsOf(LineOps(ps)) == []
  {
    hide LineOps;
    AddLines([], ps, "");
    assert [] + LineOps(ps) == LineOps(ps);
  }

  lemma {:induction false} StepsOfStage(preamble: seq<Payload>, steps: seq<WrittenStep>)
    ensures StepsOf(LineOps(preamble) + StepOps(steps)) == StepNamesOf(steps)
  {
    hide LineOps, StepsOf;
    if steps == [] {
      PreambleHasNoSteps(preamble);
      assert LineOps(preamble) + StepOps(steps) == LineOps(preamble);
    } else {
      var past, s := steps[..|steps| - 1], steps[|steps| - 1];
      StepsOfStage(preamble, past);
      AddWholeStep(LineOps(preamble) + StepOps(past), s, "");
      Regroup(LineOps(preamble), StepOps(past), [NewStep(s.name)] + LineOps(s.payloads));
    }
  }

  lemma {:induction false} BodyOfStep(preamble: seq<Payload>, steps: seq<WrittenStep>, k: nat)
    requires DistinctSteps(steps) && k < |steps|
    ensures StepBody(LineOps(preamble) + StepOps(steps), steps[k].name) == LineOps(steps[k].payloads)
  {
    hide LineOps, StepBody;
    var past, s := steps[..|steps| - 1], steps[|steps| - 1];
    AddWholeStep(LineOps(preamble) + StepOps(past), s, steps[k].name);
    Regroup(LineOps(preamble), StepOps(past), [NewStep(s.name)] + LineOps(s.payloads));
    if k < |past| {
      BodyOfStep(preamble, past, k);
    }
  }

  // ---- stages ----

  ghost predicate NoStages(ops: seq<LogOp>) {
    forall i :: 0 <= i < |ops| ==> !ops[i].NewStage?
  }

  lemma {:induction false} LineOpsHaveNoStages(ps: seq<Payload>)
    ensures NoStages(LineOps(ps))
  {
    if ps != [] {
      LineOpsHaveNoStages(ps[..|ps| - 1]);
    }
  }

  lemma {:induction false} StepOpsHaveNoStages(steps: seq<WrittenStep>)
    ensures NoStages(StepOps(steps))
  {
    hide LineOps;
    if steps != [] {
      StepOpsHaveNoStages(steps[..|steps| - 1]);
      LineOpsHaveNoStages(steps[|steps| - 1].payloads);
    }
  }

  lemma BodyOpsHaveNoStages(stage: WrittenStage)
    ensures NoStages(BodyOps(stage))
  {
    hide LineOps, StepOps;
    LineOpsHaveNoStages(stage.preamble);
    StepOpsHaveNoStages(stage.steps);
  }

  lemma {:induction false} AddStageOps(ops: seq<LogOp>, op: LogOp, b: seq<LogOp>, n: string)
    requires op.NewStage? && NoStages(b)
    ensures var r := ops + ([op] + b);
            && StagesOf(r) == StagesOf(ops) + [op.name]
            && CurrentOf(r) == Some(op.name)
            && Body(r, n) == if op.name == n then b else Body(ops, n)
    decreases |b|
  {
    hide StagesOf, CurrentOf, Body;
    if b == [] {
      OpSnoc(ops, op, n);
      assert ops + ([op] + b) == ops + [op];
    } else {
      var c, x := b[..|b| - 1], b[|b| - 1];
      AddStageOps(ops, op, c, n);
      OpSnoc(ops + ([op] + c), x, n);
      assert ops + ([op] + b) == ops + ([op] + c) + [x];
    }
  }

  lemma {:induction false} StagesOfRun(stages: seq<WrittenStage>)
    ensures StagesOf(RunOps(stages)) == StageNamesOf(stages)
  {
    hide BodyOps, StagesOf;
    if stages == [] {
      assert StagesOf([]) == [] by { NoStagesWritten(); }
    } else {
      var past, s := stages[..|stages| - 1], stages[|stages| - 1];
      StagesOfRun(past);
      BodyOpsHaveNoStages(s);
      AddStageOps(RunOps(past), NewStage(s.name, s.endStamp, s.duration, s.stamp), BodyOps(s), "");
    }
  }

  lemma NoStagesWritten()
    ensures StagesOf([]) == []
  {
  }

  lemma {:induction false} BodyOfStage(stages: seq<WrittenStage>, k: nat)
    requires DistinctStages(stages) && k < |stages|
    ensures Body(RunOps(stages), stages[k].name) == BodyOps(stages[k])
  {
    hide BodyOps, Body;
    var past, s := stages[..|stages| - 1], stages[|stages| - 1];
    BodyOpsHaveNoStages(s);
    AddStageOps(RunOps(past), NewStage(s.name, s.endStamp, s.duration, s.stamp), BodyOps(s), stages[k].name);
    if k < |past| {
      BodyOfStage(past, k);
    }
  }

  lemma {:induction false} StageNameIn(stages: seq<WrittenStage>, k: nat)
    requires k < |stages|
    ensures stages[k].name in StageNamesOf(stages)
  {
    if k < |stages| - 1 {
      StageNameIn(stages[..|stages| - 1], k);
    }
  }

  // ---- the round trip ----

  /** Exactly the stages, in each exactly its steps in order, and in each step exactly its lines. */
  ghost predicate ParsedBack(lines: seq<string>, before: seq<string>, stages: seq<WrittenStage>) {
    && StageNames(lines) == StageNames(before) + StageNamesOf(stages)
    && forall k :: 0 <= k < |stages| ==> StageParsedBack(Bucket(lines, stages[k].name), stages[k])
  }

  ghost predicate StageParsedBack(lines: seq<string>, stage: WrittenStage) {
    && StepNames(lines) == StepNamesOf(stage.steps)
    && forall j :: 0 <= j < |stage.steps| ==>
         StepBucket(lines, stage.steps[j].name) == LinesWritten(stage.steps[j].payloads)
  }

  /** With stage names used once and step names used once in their stage, the finished file, whatever log it was
      added to, parses to what was written exactly when every stage, step and line survives. */
  lemma ParsedAsWritten(initial: string, stages: seq<WrittenStage>, started: string, finished: string, duration: string)
    requires DistinctStages(stages) && forall k :: 0 <= k < |stages| ==> DistinctSteps(stages[k].steps)
    requires WholeLines(initial) && AllWritable(RunOps(stages))
    requires IsStamp(started) && IsStamp(finished) && '\n' !in duration
    ensures ParsedBack(Lines(initial + FileText(RunOps(stages), started, finished, duration)), Lines(initial), stages)
            <==> forall k :: 0 <= k < |stages| ==> StageKept(stages[k]) && StepsKept(stages[k]) && LinesKept(stages[k])
  {
    hide Lines, FileText, StageNames, Bucket, Body, StageNamesOf, IsWritable, RunOps, StagesSurvive;
    hide StageKept, StepsKept, LinesKept, StageParsedBack, StageReadsBack;
    var ops := RunOps(stages);
    var lines := Lines(initial + FileText(ops, started, finished, duration));
    RoundTrip(initial, ops, started, finished, duration);
    StagesOfRun(stages);
    RunOpsSurvive(stages);
    if StagesSurvive(ops) {
      forall k | 0 <= k < |stages|
        ensures StageParsedBack(Bucket(lines, stages[k].name), stages[k])
                <==> StepsKept(stages[k]) && LinesKept(stages[k])
      {
        StageNameIn(stages, k);
        BodyOfStage(stages, k);
        StageParsedIff(Bucket(lines, stages[k].name), stages[k]);
      }
    }
  }

  lemma StageParsedIff(lines: seq<string>, stage: WrittenStage)
    requires StageReadsBack(lines, BodyOps(stage)) && DistinctSteps(stage.steps)
    ensures StageParsedBack(lines, stage) <==> StepsKept(stage) && LinesKept(stage)
  {
    hide StepNames, StepBucket, StepsOf, StepBody, StepsSurvive, StepNamesOf, StepsKept, LineOps, StepOps, LinesWritten;
    hide AllVisibleIn, AllLines, VisibleLines, LinesSurvive, DistinctSteps;
    StepsOfStage(stage.preamble, stage.steps);
    BodyOpsSurvive(stage);
    if StepsSurvive(BodyOps(stage)) {
      forall j | 0 <= j < |stage.steps|
        ensures StepBucket(lines, stage.steps[j].name) == LinesWritten(stage.steps[j].payloads)
                <==> AllVisibleIn(stage.steps[j].payloads)
      {
        var name, ps := stage.steps[j].name, stage.steps[j].payloads;
        BodyOfStep(stage.preamble, stage.steps, j);
        LinesSurviveIn(ps);
        assert StepReadsBack(StepBucket(lines, name), StepBody(BodyOps(stage), name));
      }
    }
  }

  /** Only the first line of a payload is stamped; the rest reach the file as they are. */
  lemma ContinuationLinesAreNotStamped(stamp: string, first: string, rest: string)
    requires IsStamp(stamp) && '\n' !in first && rest != "" && WholeLines(rest)
    ensures Lines(LogWriter.LineEntry(first + "\n" + rest, stamp)) == [DropCR(Stamped(stamp, first))] + Lines(rest)
  {
    hide Lines, DropCR;
    var text := first + "\n" + rest;
    assert text[|text| - 1..] == "\n";
    assert Stamped(stamp, text) == Stamped(stamp, first) + "\n" + rest;
    FirstLine(Stamped(stamp, first), rest);
  }

  /** So a payload of several lines can forge a stage. */
  lemma MultiLinePayloadForgesStage(stamp: string, first: string, name: string)
    requires IsStamp(stamp) && '\n' !in first && IsName(name)
    ensures Lines(LogWriter.LineEntry(first + "\n" + (STAGE_MARK + name + "\n"), stamp))
            == [DropCR(Stamped(stamp, first)), STAGE_MARK + name]
    ensures StartsStage(STAGE_MARK + name)
  {
    hide Lines, DropCR, IsStage, IsSkipped, Terminated, Stamped, FirstPart, Continuation, IsStamp;
    var rest := STAGE_MARK + name + "\n";
    ContinuationLinesAreNotStamped(stamp, first, rest);
    NameIff(name);
    NameLines(STAGE_MARK, name);
    OneLine(STAGE_MARK + name);
    StageLine(name);
  }
}
