/** The log of a whole run: parsing it shows the stages the run started and the steps it performed, unless a step
    began a stage of its own. */
module RunLog {
  import opened Results
  import opened Model
  import RunSpec
  import opened RunProofs
  import RunTheorems
  import Scheduling
  import opened LogText
  import opened LogParser
  import opened LogRoundTrip
  import LogTheorems
  import opened RunMarkers
  import opened Sequences

  /** The markers of a log, without the lines between them. */
  function MarksOf(ops: seq<LogOp>): seq<Mark> {
    if ops == [] then []
    else
      MarksOf(ops[..|ops| - 1])
      + match ops[|ops| - 1]
        case NewStage(name, _, _, _) => [StageMark(name)]
        case NewStep(name) => [StepMark(name)]
        case WriteLine(_, _) => []
  }

  /** Lines between the markers change none of this. */
  lemma {:induction false} MarksDecide(ops: seq<LogOp>, n: string)
    ensures StagesOf(ops) == StagesIn(MarksOf(ops)) && CurrentOf(ops) == CurrentIn(MarksOf(ops))
    ensures StepsOf(Body(ops, n)) == StepsIn(MarksOf(ops), n)
  {
    if ops == [] {
      NothingMarked();
      NoStepsOf();
    } else {
      hide StagesOf, CurrentOf, Body, StepsOf, StagesIn, CurrentIn, StepsIn;
      var past, op := ops[..|ops| - 1], ops[|ops| - 1];
      MarksDecide(past, n);
      assert ops == past + [op];
      OpSnoc(past, op, n);
      BodyOpSnoc(Body(past, n), op, "");
      match op
      case NewStage(name, _, _, _) =>
        AddStageMark(MarksOf(past), name, n);
        NoStepsOf();
      case NewStep(name) => AddStepMark(MarksOf(past), name, n);
      case WriteLine(_, _) => assert MarksOf(past) + [] == MarksOf(past);
    }
  }

  lemma NoStepsOf()
    ensures StepsOf([]) == []
  {
  }

  /** Whatever the actions of a run write between its markers, whatever its names are, and whatever stages its steps
      open, its finished log, added to whatever log there was, shows the stages started and opened, in order, if and
      only if their names are read as written and no later line of a payload or of a step name is a stage marker.
      Then each stage shows the steps listed for it if and only if the same holds of its steps. That no two stages
      of the plan share a name is what sorting guarantees. */
  lemma WhatTheLogShows(plan: seq<StageDetail>, mkdirFailed: bool, o: RunSpec.Oracle,
                        initial: string, ops: seq<LogOp>, started: string, finished: string, duration: string)
    requires Scheduling.Distinct(plan)
    requires MarksOf(ops) == RunMarks(plan, RunSpec.Run(plan, mkdirFailed, o).trace)
    requires WholeLines(initial) && AllWritable(ops) && IsStamp(started) && IsStamp(finished) && '\n' !in duration
    ensures var f := RunTheorems.Decisive(plan, o);
            var lines := Lines(initial + FileText(ops, started, finished, duration));
            && (StageNames(lines) == StageNames(Lines(initial)) + StagesShown(plan, mkdirFailed, f, o)
                <==> StagesSurvive(ops))
            && (StagesSurvive(ops) && RunSpec.ARTIFACTORY_STAGE in StagesShown(plan, mkdirFailed, f, o) ==>
                  (StepNames(Bucket(lines, RunSpec.ARTIFACTORY_STAGE)) == ArtifactorySteps(plan, mkdirFailed, f, o)
                   <==> StepsSurvive(Body(ops, RunSpec.ARTIFACTORY_STAGE))))
            && forall k :: 0 <= k < |plan| ==>
                 (&& StagesSurvive(ops) && IsStarted(plan, mkdirFailed, f, k)
                  && plan[k].name != RunSpec.ARTIFACTORY_STAGE ==>
                    (StepNames(Bucket(lines, plan[k].name)) == StepsShown(plan, mkdirFailed, f, o, k)
                     <==> StepsSurvive(Body(ops, plan[k].name))))
  {
    hide Lines, FileText, StageNames, StepNames, Bucket, StepsOf, StagesOf, Body, IsWritable, MarksOf, RunMarks;
    hide StepsShown, RunTheorems.Decisive, StagesIn, StepsIn, IsStarted, StagesShown, ArtifactorySteps, RunSpec.Run;
    hide StagesSurvive, StepsSurvive, Scheduling.Distinct;
    var f := RunTheorems.Decisive(plan, o);
    var lines := Lines(initial + FileText(ops, started, finished, duration));
    LogTheorems.RoundTrip(initial, ops, started, finished, duration);
    MarksDecide(ops, RunSpec.ARTIFACTORY_STAGE);
    MarksShow(plan, mkdirFailed, o, |plan|);
    forall k | 0 <= k < |plan| && IsStarted(plan, mkdirFailed, f, k) && plan[k].name != RunSpec.ARTIFACTORY_STAGE
      ensures StagesSurvive(ops) ==>
                (StepNames(Bucket(lines, plan[k].name)) == StepsShown(plan, mkdirFailed, f, o, k)
                 <==> StepsSurvive(Body(ops, plan[k].name)))
    {
      MarksDecide(ops, plan[k].name);
      MarksShow(plan, mkdirFailed, o, k);
      StartedIsShown(plan, mkdirFailed, o, k);
    }
  }

  lemma StartedIsShown(plan: seq<StageDetail>, mkdirFailed: bool, o: RunSpec.Oracle, k: nat)
    requires Scheduling.Distinct(plan) && k < |plan| && IsStarted(plan, mkdirFailed, RunTheorems.Decisive(plan, o), k)
    ensures plan[k].name in StagesShown(plan, mkdirFailed, RunTheorems.Decisive(plan, o), o)
  {
    hide FirstFailure, Calls, Starts, ShownNames;
    if !Stillborn(plan, mkdirFailed) {
      ShownFrom(plan, 0, RunTheorems.Decisive(plan, o), o, k);
    }
  }

  lemma ShownStep(plan: seq<StageDetail>, i: nat, f: Option<RunSpec.Call>, o: RunSpec.Oracle)
    requires i < |plan|
    ensures plan[i].name in ShownNames(plan, i, f, o)
    ensures !Stops(plan, i, f) ==> ShownNames(plan, i, f, o) == ShownFor(plan, i, f, o) + ShownNames(plan, i + 1, f, o)
  {
    hide Stops, StopAt, OpenedNames;
    assert ShownNames(plan, i, f, o)[0] == plan[i].name;
  }

  lemma {:induction false} ShownFrom(plan: seq<StageDetail>, i: nat, f: Option<RunSpec.Call>, o: RunSpec.Oracle, k: nat)
    requires i <= k < |plan| && Starts(plan, f, k) && (FatalInPlan(plan, f) ==> f.value.stage >= i)
    ensures plan[k].name in ShownNames(plan, i, f, o)
    decreases |plan| - i
  {
    hide Fatal, ShownNames, ShownFor;
    ShownStep(plan, i, f, o);
    if k > i {
      assert !Stops(plan, i, f);
      ShownFrom(plan, i + 1, f, o, k);
    }
  }

  /** The log shows exactly the stages started, in plan order, and in each exactly the steps performed. */
  ghost predicate ShowsTheRun(lines: seq<string>, before: seq<string>, plan: seq<StageDetail>, mkdirFailed: bool,
                              f: Option<RunSpec.Call>) {
    && StageNames(lines) == StageNames(before) + StagesStarted(plan, mkdirFailed, f)
    && forall k :: 0 <= k < |plan| && IsStarted(plan, mkdirFailed, f, k) ==>
         StepNames(Bucket(lines, plan[k].name))
         == StepNamesBetween(plan[k].stage.steps, 0, StopAt(plan[k].stage.steps, k, f))
  }

  /** Without a stage opened by a step, every started stage shows all the steps performed. */
  lemma NothingOpenedShowsAll(plan: seq<StageDetail>, mkdirFailed: bool, o: RunSpec.Oracle, k: nat)
    requires Scheduling.Distinct(plan) && NoStageOpened(plan, mkdirFailed, o)
    requires k < |plan| && IsStarted(plan, mkdirFailed, RunTheorems.Decisive(plan, o), k)
    ensures var steps := plan[k].stage.steps;
            StepsIn(RunMarks(plan, RunSpec.Run(plan, mkdirFailed, o).trace), plan[k].name)
            == StepNamesBetween(steps, 0, StopAt(steps, k, RunTheorems.Decisive(plan, o)))
  {
    hide StepsIn, RunMarks, RunSpec.Run, StepNamesBetween, FirstFailure, Calls, UpTo, ShownNames, StartedNames;
    hide LastOpening, StopAt, ShownEnd, Starts, NoneOpens, StepsAtOpening, Scheduling.Distinct, OpensStage;
    var f := RunTheorems.Decisive(plan, o);
    MarksShow(plan, mkdirFailed, o, k);
    if Stillborn(plan, mkdirFailed) {
      NoSteps(StopAt([], 0, f));
    } else {
      RunTheorems.CallsComeFrom(plan, 0, o);
      NoneOpensIff(plan, o);
      NoneOpensShowsAll(plan, f, o, k);
    }
  }

  lemma NoneOpensShowsAll(plan: seq<StageDetail>, f: Option<RunSpec.Call>, o: RunSpec.Oracle, k: nat)
    requires Scheduling.Distinct(plan) && NoneOpens(plan, 0, f, o) && InRange(plan, f) && k < |plan|
             && Starts(plan, f, k)
    ensures var steps := plan[k].stage.steps; var end := StopAt(steps, k, f);
            && ShownEnd(steps, k, end, f, o) == end
            && (plan[k].name == RunSpec.ARTIFACTORY_STAGE ==>
                  StepsAtOpening(plan, f, LastOpening(plan, 0, f, o)) == StepNamesBetween(steps, 0, end))
  {
    hide NoneOpens, StepNamesBetween, StopAt, ShownEnd, LastOpening, Starts, Scheduling.Distinct, LastOpen;
    NoneOpensInStage(plan, f, o, k);
    if plan[k].name == RunSpec.ARTIFACTORY_STAGE { OnlyStageOpens(plan, 0, f, o, k); }
  }

  lemma NoSteps(end: nat)
    ensures StepNamesBetween([], 0, end) == []
  {
  }

  lemma NoneOpensInStage(plan: seq<StageDetail>, f: Option<RunSpec.Call>, o: RunSpec.Oracle, k: nat)
    requires NoneOpens(plan, 0, f, o) && InRange(plan, f) && k < |plan|
    ensures var steps := plan[k].stage.steps; var end := StopAt(steps, k, f);
            ShownEnd(steps, k, end, f, o) == end && LastOpen(steps, k, end, f, o).None?
  {
    hide Opens, FirstOpen, LastOpen, OpenedNames;
    StopsInRange(plan, k, f);
    FirstIfLast(plan[k].stage.steps, k, StopAt(plan[k].stage.steps, k, f), f, o);
  }

  /** Then a started stage called "artifactory" is the last opening of that name. */
  lemma {:induction false} OnlyStageOpens(plan: seq<StageDetail>, i: nat, f: Option<RunSpec.Call>, o: RunSpec.Oracle,
                                          k: nat)
    requires Scheduling.Distinct(plan) && NoneOpens(plan, 0, f, o) && InRange(plan, f)
    requires k < |plan| && plan[k].name == RunSpec.ARTIFACTORY_STAGE && Starts(plan, f, k)
    requires FatalInPlan(plan, f) ==> f.value.stage >= i
    ensures LastOpening(plan, i, f, o) == if i <= k then Some((k, 0)) else None
    decreases |plan| - i
  {
    hide NoneOpens, Fatal, LastOpen, StopAt;
    if i < |plan| {
      NoneOpensInStage(plan, f, o, i);
      if !Stops(plan, i, f) {
        OnlyStageOpens(plan, i + 1, f, o, k);
      }
    }
  }

  /** The finished log of a run, added to whatever log there was, shows exactly the stages the run started, in plan
      order, and in each exactly the steps it performed, if and only if no step opened a stage of its own, the names
      of stages and steps are read as written, and no later line of a payload or of a step name is a marker that
      would be read as one. */
  lemma LogShowsTheRun(plan: seq<StageDetail>, mkdirFailed: bool, o: RunSpec.Oracle,
                       initial: string, ops: seq<LogOp>, started: string, finished: string, duration: string)
    requires Scheduling.Distinct(plan)
    requires MarksOf(ops) == RunMarks(plan, RunSpec.Run(plan, mkdirFailed, o).trace)
    requires WholeLines(initial) && AllWritable(ops) && IsStamp(started) && IsStamp(finished) && '\n' !in duration
    ensures var f := RunTheorems.Decisive(plan, o);
            var lines := Lines(initial + FileText(ops, started, finished, duration));
            && (StageNames(lines) == StageNames(Lines(initial)) + StagesStarted(plan, mkdirFailed, f)
                <==> NoStageOpened(plan, mkdirFailed, o) && StagesSurvive(ops))
            && (ShowsTheRun(lines, Lines(initial), plan, mkdirFailed, f)
                <==> && NoStageOpened(plan, mkdirFailed, o) && StagesSurvive(ops)
                     && forall k :: 0 <= k < |plan| && IsStarted(plan, mkdirFailed, f, k) ==>
                          StepsSurvive(Body(ops, plan[k].name)))
            && forall k :: 0 <= k < |plan| ==>
                 (plan[k].name in StagesStarted(plan, mkdirFailed, f) <==> IsStarted(plan, mkdirFailed, f, k))
  {
    hide Lines, FileText, StageNames, StepNames, Bucket, StepsOf, StagesOf, Body, IsWritable, MarksOf, RunMarks;
    hide RunTheorems.Decisive, StagesIn, StepsIn, IsStarted, StagesShown, StagesStarted, RunSpec.Run, NoStageOpened;
    hide StagesSurvive, StepsSurvive, Scheduling.Distinct, StepNamesBetween, StopAt, AllWritable, Stillborn;
    var f := RunTheorems.Decisive(plan, o);
    var before, lines := Lines(initial), Lines(initial + FileText(ops, started, finished, duration));
    LogTheorems.RoundTrip(initial, ops, started, finished, duration);
    ShownStagesIff(plan, mkdirFailed, o, initial, ops, started, finished, duration);
    forall k | 0 <= k < |plan|
      ensures plan[k].name in StagesStarted(plan, mkdirFailed, f) <==> IsStarted(plan, mkdirFailed, f, k)
      ensures NoStageOpened(plan, mkdirFailed, o) && StagesSurvive(ops) && IsStarted(plan, mkdirFailed, f, k) ==>
                (StepNames(Bucket(lines, plan[k].name))
                 == StepNamesBetween(plan[k].stage.steps, 0, StopAt(plan[k].stage.steps, k, f))
                 <==> StepsSurvive(Body(ops, plan[k].name)))
    {
      StartedIff(plan, mkdirFailed, o, k);
      if NoStageOpened(plan, mkdirFailed, o) && StagesSurvive(ops) && IsStarted(plan, mkdirFailed, f, k) {
        MarksDecide(ops, plan[k].name);
        MarksShow(plan, mkdirFailed, o, k);
        StartedIsShown(plan, mkdirFailed, o, k);
        NothingOpenedShowsAll(plan, mkdirFailed, o, k);
      }
    }
  }

  lemma StartedIff(plan: seq<StageDetail>, mkdirFailed: bool, o: RunSpec.Oracle, k: nat)
    requires Scheduling.Distinct(plan) && k < |plan|
    ensures var f := RunTheorems.Decisive(plan, o);
            plan[k].name in StagesStarted(plan, mkdirFailed, f) <==> IsStarted(plan, mkdirFailed, f, k)
  {
    hide FirstFailure, Calls, Starts, StartedNames;
    if !Stillborn(plan, mkdirFailed) {
      StartedAre(plan, 0, RunTheorems.Decisive(plan, o), k);
    }
  }

  lemma ShownStagesIff(plan: seq<StageDetail>, mkdirFailed: bool, o: RunSpec.Oracle,
                       initial: string, ops: seq<LogOp>, started: string, finished: string, duration: string)
    requires Scheduling.Distinct(plan)
    requires MarksOf(ops) == RunMarks(plan, RunSpec.Run(plan, mkdirFailed, o).trace)
    requires WholeLines(initial) && AllWritable(ops) && IsStamp(started) && IsStamp(finished) && '\n' !in duration
    ensures var f := RunTheorems.Decisive(plan, o);
            var lines := Lines(initial + FileText(ops, started, finished, duration));
            StageNames(lines) == StageNames(Lines(initial)) + StagesStarted(plan, mkdirFailed, f)
            <==> NoStageOpened(plan, mkdirFailed, o) && StagesSurvive(ops)
  {
    hide Lines, FileText, FileLines, StageNames, StagesOf, IsWritable, MarksOf, RunMarks, LogTheorems.AllSeenStages;
    hide RunTheorems.Decisive, StagesIn, StepsIn, StagesShown, StagesStarted, RunSpec.Run, NoStageOpened;
    hide StagesSurvive, Scheduling.Distinct, Stillborn;
    var f := RunTheorems.Decisive(plan, o);
    var before, seen := StageNames(Lines(initial)), LogTheorems.AllSeenStages(ops);
    LogTheorems.LogLines(initial, ops, started, finished, duration);
    LogTheorems.FileStageNames(Lines(initial), ops, started, finished, duration);
    LogTheorems.SeenAreBegunIff(ops);
    MarksDecide(ops, "");
    MarksShow(plan, mkdirFailed, o, |plan|);
    ShownStartedIff(plan, mkdirFailed, o);
    SamePrefix(before, seen, StagesStarted(plan, mkdirFailed, f));
  }

  lemma ShownStartedIff(plan: seq<StageDetail>, mkdirFailed: bool, o: RunSpec.Oracle)
    ensures var f := RunTheorems.Decisive(plan, o);
            var shown, begun := StagesShown(plan, mkdirFailed, f, o), StagesStarted(plan, mkdirFailed, f);
            && |shown| >= |begun| && (|shown| == |begun| <==> NoStageOpened(plan, mkdirFailed, o))
            && (|shown| == |begun| ==> shown == begun)
  {
    hide FirstFailure, Calls, UpTo, ShownNames, StartedNames, NoneOpens, OpensStage;
    var f := RunTheorems.Decisive(plan, o);
    RunTheorems.CallsComeFrom(plan, 0, o);
    NoneOpensIff(plan, o);
    if !Stillborn(plan, mkdirFailed) {
      ShownAreStartedIff(plan, 0, f, o);
    }
  }

  // ---- a run whose log does not show it ----

  const SAVE := Step("save", "hamster-artifactory", "", NotRun)
  const CHECK := Step("check", "shell", "", NotRun)
  const BUILD := [StageDetail("build", Stage([SAVE, CHECK], []), NotRun)]

  lemma {:induction false} NothingFails(cs: seq<RunSpec.Call>, o: RunSpec.Oracle)
    requires forall c :: o(c) == RunSpec.Done
    ensures FirstFailure(cs, o) == None
  {
    if cs != [] {
      NothingFails(cs[1..], o);
    }
  }

  /** Its markers when every action succeeds. */
  lemma BuildMarks(o: RunSpec.Oracle)
    requires forall c :: o(c) == RunSpec.Done
    ensures RunMarks(BUILD, RunSpec.Run(BUILD, false, o).trace)
            == [StageMark("build"), StepMark("save"), StageMark("artifactory"), StepMark("check")]
    ensures StagesStarted(BUILD, false, RunTheorems.Decisive(BUILD, o)) == ["build"]
    ensures !NoStageOpened(BUILD, false, o)
  {
    hide RunMarks, RunSpec.Run, FirstFailure, Calls;
    NothingFails(Calls(BUILD, 0), o);
    RunMarksAre(BUILD, false, o);
    var steps := [SAVE, CHECK];
    assert StepMarks(steps, 0, 2, 2, None, o) == [];
    assert StepMarks(steps, 0, 1, 2, None, o) == [StepMark("check")] + [];
    assert StepMarks(steps, 0, 0, 2, None, o)
        == [StepMark("save"), StageMark("artifactory")] + StepMarks(steps, 0, 1, 2, None, o);
    assert PlanMarks(BUILD, 1, None, o) == [] && StartedNames(BUILD, 1, None) == [];
    assert Opens(BUILD[0].stage.steps, 0, 0, None, o);
    NoneOpensIff(BUILD, o);
  }

  /** One stage of two steps, of which the first saves artifacts, with every action done and no name or payload in
      the way: the log shows two stages, and the second step not in the stage it belongs to. */
  lemma ArtifactorySplitsStage(o: RunSpec.Oracle, initial: string, stamp: string, duration: string, finished: string)
    requires forall c :: o(c) == RunSpec.Done
    requires WholeLines(initial) && IsStamp(stamp) && IsStamp(finished) && '\n' !in duration
    ensures var ops := [NewStage("build", stamp, duration, stamp), NewStep("save"),
                        NewStage("artifactory", stamp, duration, stamp), NewStep("check")];
            var lines := Lines(initial + FileText(ops, stamp, finished, duration));
            && MarksOf(ops) == RunMarks(BUILD, RunSpec.Run(BUILD, false, o).trace)
            && StagesSurvive(ops)
            && StagesStarted(BUILD, false, RunTheorems.Decisive(BUILD, o)) == ["build"]
            && StageNames(lines) == StageNames(Lines(initial)) + ["build", "artifactory"]
            && StepNames(Bucket(lines, "build")) == ["save"]
            && StepNames(Bucket(lines, "artifactory")) == ["check"]
  {
    hide Lines, FileText, StageNames, StepNames, StepBucket, Bucket, RunMarks, RunSpec.Run, StagesStarted, IsStamp;
    hide FirstFailure, Calls, StagesOf, Body, StepsOf, MarksOf, StepBody, StagesSurvive, StepsSurvive;
    var a, b := NewStage("build", stamp, duration, stamp), NewStep("save");
    var c, d := NewStage("artifactory", stamp, duration, stamp), NewStep("check");
    var ops := [a, b, c, d];
    BuildMarks(o);
    FourOps(a, b, c, d);
    FourSurvive(stamp, duration);
    LogTheorems.RoundTrip(initial, ops, stamp, finished, duration);
    assert "build" in StagesOf(ops) && "artifactory" in StagesOf(ops);
  }

  lemma FourSurvive(stamp: string, duration: string)
    ensures StagesSurvive([NewStage("build", stamp, duration, stamp), NewStep("save"),
                           NewStage("artifactory", stamp, duration, stamp), NewStep("check")])
    ensures StepsSurvive([NewStep("save")]) && StepsSurvive([NewStep("check")])
  {
    hide Continuation, FirstPart, DropCR;
    NameIff("save");
    NameIff("check");
  }

  lemma MarksSnoc(ops: seq<LogOp>, op: LogOp)
    ensures MarksOf(ops + [op])
            == MarksOf(ops) + match op
                              case NewStage(name, _, _, _) => [StageMark(name)]
                              case NewStep(name) => [StepMark(name)]
                              case WriteLine(_, _) => []
  {
    assert (ops + [op])[..|ops|] == ops;
  }

  lemma FourOps(a: LogOp, b: LogOp, c: LogOp, d: LogOp)
    requires a.NewStage? && b.NewStep? && c.NewStage? && d.NewStep? && a.name != c.name
    ensures MarksOf([a, b, c, d]) == [StageMark(a.name), StepMark(b.name), StageMark(c.name), StepMark(d.name)]
    ensures StagesOf([a, b, c, d]) == [a.name, c.name]
    ensures Body([a, b, c, d], a.name) == [b] && Body([a, b, c, d], c.name) == [d]
    ensures StepsOf([b]) == [b.name] && StepsOf([d]) == [d.name]
  {
    hide MarksOf, StagesOf, CurrentOf, Body, StepsOf;
    NothingYet("");
    assert [] + [a] == [a] && [a] + [b] == [a, b] && [a, b] + [c] == [a, b, c] && [a, b, c] + [d] == [a, b, c, d];
    assert [] + [b] == [b] && [] + [d] == [d];
    MarksSnoc([], a);
    MarksSnoc([a], b);
    MarksSnoc([a, b], c);
    MarksSnoc([a, b, c], d);
    FourOpsShow(a, b, c, d, a.name);
    FourOpsShow(a, b, c, d, c.name);
    BodyOpSnoc([], b, "");
    BodyOpSnoc([], d, "");
  }

  lemma FourOpsShow(a: LogOp, b: LogOp, c: LogOp, d: LogOp, n: string)
    requires a.NewStage? && b.NewStep? && c.NewStage? && d.NewStep? && a.name != c.name
    ensures StagesOf([a, b, c, d]) == [a.name, c.name]
    ensures n == a.name ==> Body([a, b, c, d], n) == [b]
    ensures n == c.name ==> Body([a, b, c, d], n) == [d]
  {
    hide StagesOf, CurrentOf, Body;
    NothingYet(n);
    assert [] + [a] == [a] && [a] + [b] == [a, b] && [a, b] + [c] == [a, b, c] && [a, b, c] + [d] == [a, b, c, d];
    OpSnoc([], a, n);
    OpSnoc([a], b, n);
    OpSnoc([a, b], c, n);
    OpSnoc([a, b, c], d, n);
  }

  lemma NothingYet(n: string)
    ensures MarksOf([]) == [] && StagesOf([]) == [] && CurrentOf([]) == None && Body([], n) == [] && StepsOf([]) == []
  {
  }
}
