/** The markers a whole run writes to its log, and what they say of its stages and steps. */
module RunMarkers {
  import opened Results
  import opened Model
  import RunSpec
  import opened RunProofs
  import RunTheorems
  import Scheduling
  import opened Sequences

  datatype Mark = StageMark(name: string) | StepMark(name: string)

  /** The markers a run writes: one when a stage starts, one when a step is performed, and the one that some
      actions write themselves. */
  function RunMarks(plan: seq<StageDetail>, t: seq<RunSpec.Event>): seq<Mark> {
    if t == [] then [] else RunMarks(plan, t[..|t| - 1]) + EventMarks(plan, t[|t| - 1])
  }

  function EventMarks(plan: seq<StageDetail>, e: RunSpec.Event): seq<Mark> {
    match e
    case StageStart(i, _) => if i < |plan| then [StageMark(plan[i].name)] else []
    case StepLogged(i, j) =>
      if i < |plan| && j < |plan[i].stage.steps| then [StepMark(plan[i].stage.steps[j].name)] else []
    case Hook(c, _) => if OpensStage(plan, c) then [StageMark(RunSpec.ARTIFACTORY_STAGE)] else []
    case _ => []
  }

  /** The call is the action of a step that begins a stage of its own. */
  predicate OpensStage(plan: seq<StageDetail>, c: RunSpec.Call) {
    && c.kind.StepAction? && c.stage < |plan| && c.step < |plan[c.stage].stage.steps|
    && RunSpec.WritesStage(plan[c.stage].stage.steps[c.step])
  }

  lemma RunMarksSnoc(plan: seq<StageDetail>, t: seq<RunSpec.Event>, e: RunSpec.Event)
    ensures RunMarks(plan, t + [e]) == RunMarks(plan, t) + EventMarks(plan, e)
  {
    assert (t + [e])[..|t|] == t;
  }

  /** Saving the job detail writes nothing to the log. */
  lemma SaveMarks(plan: seq<StageDetail>, st: RunSpec.RunState)
    ensures RunMarks(plan, RunSpec.Save(st).trace) == RunMarks(plan, st.trace)
  {
    hide RunMarks;
    RunMarksSnoc(plan, st.trace, RunSpec.Saved(RunSpec.Snapshot(st.status, st.stages)));
    assert RunMarks(plan, st.trace) + [] == RunMarks(plan, st.trace);
  }

  lemma BeginStageMarks(plan: seq<StageDetail>, st: RunSpec.RunState, i: nat)
    requires i < |plan|
    ensures RunMarks(plan, RunSpec.BeginStage(st, i).trace) == RunMarks(plan, st.trace) + [StageMark(plan[i].name)]
  {
    hide RunMarks, RunSpec.SetStage;
    var a := RunSpec.Emit(st, RunSpec.StageStart(i, st.stages));
    RunMarksSnoc(plan, st.trace, RunSpec.StageStart(i, st.stages));
    SaveMarks(plan, a.(stages := RunSpec.SetStage(a.stages, i, Running)));
  }

  lemma EndStageMarks(plan: seq<StageDetail>, st: RunSpec.RunState, i: nat)
    ensures RunMarks(plan, RunSpec.EndStage(st, i).trace) == RunMarks(plan, st.trace)
  {
    hide RunMarks, RunSpec.SetStage;
    SaveMarks(plan, st.(stages := RunSpec.SetStage(st.stages, i, if st.err then Fail else Success)));
  }

  lemma ConcludeMarks(plan: seq<StageDetail>, st: RunSpec.RunState)
    ensures RunMarks(plan, RunSpec.Conclude(st).trace) == RunMarks(plan, st.trace)
  {
    hide RunMarks;
    SaveMarks(plan, st.(status := if st.err then Fail else Success));
  }

  // ---- the markers of a run ----

  /** The action of step `j` of stage `i` comes no later than the first failure `f`. */
  predicate Attempted(f: Option<RunSpec.Call>, i: nat, j: nat) {
    match f
    case None => true
    case Some(c) => i < c.stage || (i == c.stage && (j < c.step || (j == c.step && c.kind.StepAction?)))
  }

  /** Step `j` of stage `i` gets as far as its `Hook` and begins a stage there. */
  predicate Opens(steps: seq<Step>, i: nat, j: nat, f: Option<RunSpec.Call>, o: RunSpec.Oracle)
    requires j < |steps|
  {
    && RunSpec.WritesStage(steps[j]) && Attempted(f, i, j)
    && o(RunSpec.Call(i, j, RunSpec.StepAction)) != RunSpec.PreError
  }

  function OneStep(steps: seq<Step>, i: nat, j: nat, f: Option<RunSpec.Call>, o: RunSpec.Oracle): seq<Mark>
    requires j < |steps|
  {
    [StepMark(steps[j].name)] + if Opens(steps, i, j, f, o) then [StageMark(RunSpec.ARTIFACTORY_STAGE)] else []
  }

  /** The steps `j` to `end` of stage `i`. */
  function StepMarks(steps: seq<Step>, i: nat, j: nat, end: nat, f: Option<RunSpec.Call>, o: RunSpec.Oracle): seq<Mark>
    decreases end - j
  {
    if j >= end || j >= |steps| then [] else OneStep(steps, i, j, f, o) + StepMarks(steps, i, j + 1, end, f, o)
  }

  /** The step of stage `i` at which it stops being performed. */
  function StopAt(steps: seq<Step>, i: nat, f: Option<RunSpec.Call>): nat {
    if f.Some? && f.value.stage == i && f.value.kind.ContainerStart? then f.value.step else |steps|
  }

  /** Stage `i` is the last to run. */
  predicate Stops(plan: seq<StageDetail>, i: nat, f: Option<RunSpec.Call>)
    requires i < |plan|
  {
    f.Some? && f.value.stage == i && Fatal(plan[i].stage.steps, f.value)
  }

  /** The markers of stages `i` on, when `f` is the first failure. */
  function PlanMarks(plan: seq<StageDetail>, i: nat, f: Option<RunSpec.Call>, o: RunSpec.Oracle): seq<Mark>
    decreases |plan| - i
  {
    if i >= |plan| then []
    else
      [StageMark(plan[i].name)] + StepMarks(plan[i].stage.steps, i, 0, StopAt(plan[i].stage.steps, i, f), f, o)
      + if Stops(plan, i, f) then [] else PlanMarks(plan, i + 1, f, o)
  }

  lemma ActMarks(plan: seq<StageDetail>, st: RunSpec.RunState, c: RunSpec.Call, hasHandler: bool, out: RunSpec.Outcome)
    ensures RunMarks(plan, RunSpec.Act(st, c, hasHandler, out).trace)
            == RunMarks(plan, st.trace)
               + (if st.status != Running || !hasHandler || out == RunSpec.PreError then []
                  else EventMarks(plan, RunSpec.Hook(c, true)))
  {
    hide RunMarks, OpensStage;
    RunMarksSnoc(plan, st.trace, RunSpec.Pre(c, false));
    RunMarksSnoc(plan, st.trace, RunSpec.Pre(c, true));
    RunMarksSnoc(plan, st.trace + [RunSpec.Pre(c, true)], RunSpec.Hook(c, out.Done?));
  }

  lemma {:induction false} DrainMarks(plan: seq<StageDetail>, st: RunSpec.RunState)
    ensures RunMarks(plan, RunSpec.Drain(st).trace) == RunMarks(plan, st.trace)
    decreases |st.stack|
  {
    hide RunMarks;
    if st.stack != [] {
      var n := |st.stack| - 1;
      RunMarksSnoc(plan, st.trace, RunSpec.Post(st.stack[n]));
      DrainMarks(plan, RunSpec.Emit(st, RunSpec.Post(st.stack[n])).(stack := st.stack[..n]));
    }
  }

  lemma StartContainerMarks(plan: seq<StageDetail>, st: RunSpec.RunState, step: Step, i: nat, j: nat, o: RunSpec.Oracle)
    ensures RunMarks(plan, RunSpec.StartContainer(RunSpec.Emit(st, RunSpec.StepStart(i, j)), step, i, j, o).trace)
            == RunMarks(plan, st.trace)
  {
    hide RunMarks, RunSpec.Act;
    var c := RunSpec.Call(i, j, RunSpec.ContainerStart);
    RunMarksSnoc(plan, st.trace, RunSpec.StepStart(i, j));
    ActMarks(plan, RunSpec.Emit(st, RunSpec.StepStart(i, j)), c, true, o(c));
  }

  /** A step is marked when it is performed, and by its own action if that runs and begins a stage. */
  lemma FinishStepMarks(plan: seq<StageDetail>, st: RunSpec.RunState, i: nat, j: nat, o: RunSpec.Oracle)
    requires i < |plan| && j < |plan[i].stage.steps|
    ensures var step := plan[i].stage.steps[j];
            RunMarks(plan, RunSpec.FinishStep(st, step, i, j, o).trace)
            == RunMarks(plan, st.trace) + [StepMark(step.name)]
               + if && st.status == Running && RunSpec.WritesStage(step)
                    && o(RunSpec.Call(i, j, RunSpec.StepAction)) != RunSpec.PreError
                 then [StageMark(RunSpec.ARTIFACTORY_STAGE)] else []
  {
    hide RunMarks, RunSpec.Act, RunSpec.Drain, RunSpec.SetStep, RunSpec.HasAction;
    var step := plan[i].stage.steps[j];
    var c := RunSpec.Call(i, j, RunSpec.StepAction);
    var s0 := st.(stages := RunSpec.SetStep(st.stages, i, j, Running));
    var s2 := RunSpec.Emit(RunSpec.Save(s0), RunSpec.StepLogged(i, j));
    SaveMarks(plan, s0);
    RunMarksSnoc(plan, RunSpec.Save(s0).trace, RunSpec.StepLogged(i, j));
    ActMarks(plan, s2, c, RunSpec.HasAction(step), o(c));
    var b := RunSpec.Drain(RunSpec.Act(s2, c, RunSpec.HasAction(step), o(c)));
    DrainMarks(plan, RunSpec.Act(s2, c, RunSpec.HasAction(step), o(c)));
    SaveMarks(plan, b.(stages := RunSpec.SetStep(b.stages, i, j, if b.err then Fail else Success)));
    ArtifactoryHasAction(step);
  }

  lemma ArtifactoryHasAction(step: Step)
    ensures RunSpec.WritesStage(step) ==> RunSpec.HasAction(step)
  {
  }

  /** `f` is the first failure of a run that is about to perform stage `i` from step `j`, where `g` is the first
      failure among the steps that remain of it. */
  predicate FailsAt(status: Status, f: Option<RunSpec.Call>, g: Option<RunSpec.Call>, i: nat, j: nat) {
    if status == Running then (if g.Some? then f == g else f.Some? ==> f.value.stage > i)
    else
      && f.Some? && f.value.kind.StepAction?
      && (f.value.stage < i || (f.value.stage == i && f.value.step < j))
  }

  /** One step later; and whether this step's action is attempted. */
  lemma FailsNext(steps: seq<Step>, status: Status, f: Option<RunSpec.Call>, i: nat, j: nat, o: RunSpec.Oracle)
    requires j < |steps| && FailsAt(status, f, FirstFailure(StepCalls(steps, i, j), o), i, j)
    ensures var down := steps[j].runsOn != "" && o(RunSpec.Call(i, j, RunSpec.ContainerStart)) != RunSpec.Done;
            var fails := RunSpec.HasAction(steps[j]) && o(RunSpec.Call(i, j, RunSpec.StepAction)) != RunSpec.Done;
            if status == Running && down then StopAt(steps, i, f) == j
            else && (RunSpec.HasAction(steps[j]) ==> (status == Running <==> Attempted(f, i, j)))
                 && j < StopAt(steps, i, f)
                 && FailsAt(if status == Running && fails then Fail else status, f,
                            FirstFailure(StepCalls(steps, i, j + 1), o), i, j + 1)
  {
    hide RunSpec.HandlerOf, FirstFailure, StepCalls, RunSpec.HasAction;
    FirstFailureFromStep(steps, i, j, o);
    CallsAreInRange(steps, i, j, o);
    CallsAreInRange(steps, i, j + 1, o);
  }

  lemma {:induction false} StepsMarks(plan: seq<StageDetail>, st: RunSpec.RunState, i: nat, j: nat,
                                      f: Option<RunSpec.Call>, o: RunSpec.Oracle)
    requires i < |plan| && j <= |plan[i].stage.steps|
    requires FailsAt(st.status, f, FirstFailure(StepCalls(plan[i].stage.steps, i, j), o), i, j)
    ensures var steps := plan[i].stage.steps;
            RunMarks(plan, RunSpec.RunSteps(steps, st, i, j, o).trace)
            == RunMarks(plan, st.trace) + StepMarks(steps, i, j, StopAt(steps, i, f), f, o)
    decreases |plan[i].stage.steps| - j
  {
    hide RunMarks, RunSpec.StartContainer, RunSpec.FinishStep, RunSpec.HasAction, FirstFailure, StepCalls;
    hide RunSpec.WritesStage, FailsAt, Attempted, StopAt;
    var steps := plan[i].stage.steps;
    if j >= |steps| {
      assert StepMarks(steps, i, j, StopAt(steps, i, f), f, o) == [];
    } else {
      var c := RunSpec.StartContainer(RunSpec.Emit(st, RunSpec.StepStart(i, j)), steps[j], i, j, o);
      StepIteration(st, steps[j], i, j, o);
      StartContainerMarks(plan, st, steps[j], i, j, o);
      FailsNext(steps, st.status, f, i, j, o);
      if !(steps[j].runsOn != "" && c.err) {
        FinishStepMarks(plan, c, i, j, o);
        ArtifactoryHasAction(steps[j]);
        StepsMarks(plan, RunSpec.FinishStep(c, steps[j], i, j, o), i, j + 1, f, o);
        Regroup(RunMarks(plan, st.trace), OneStep(steps, i, j, f, o),
            StepMarks(steps, i, j + 1, StopAt(steps, i, f), f, o));
        assert RunMarks(plan, RunSpec.FinishStep(c, steps[j], i, j, o).trace)
            == RunMarks(plan, st.trace) + OneStep(steps, i, j, f, o);
      }
    }
  }

  lemma {:induction false} StagesMarks(plan: seq<StageDetail>, st: RunSpec.RunState, i: nat, f: Option<RunSpec.Call>,
                                       o: RunSpec.Oracle)
    requires st.err && i < |plan| ==> st.status == Running && plan[i].stage.steps != []
    requires if st.status == Running then f == FirstFailure(Calls(plan, i), o)
             else f.Some? && f.value.kind.StepAction? && f.value.stage < i
    ensures RunMarks(plan, RunSpec.RunStages(plan, st, i, o).trace)
            == RunMarks(plan, st.trace) + PlanMarks(plan, i, f, o)
    decreases |plan| - i
  {
    hide RunMarks, RunSpec.RunSteps, FirstFailure, StepCalls, Calls, RunSpec.SetStage, StepMarks, Followed;
    if i < |plan| {
      var steps := plan[i].stage.steps;
      var b := RunSpec.BeginStage(st, i);
      var s := RunSpec.RunStage(plan, st, i, o);
      BeginStageMarks(plan, st, i);
      EndStageMarks(plan, RunSpec.RunSteps(steps, b, i, 0, o), i);
      RunTheorems.FirstFailureFromStage(plan, i, o);
      if st.status == Running { CallsAreInRange(steps, i, 0, o); }
      StepsMarks(plan, b, i, 0, f, o);
      StageFollows(plan, st, i, o);
      StatusFollows(st, s, StepCalls(steps, i, 0), o);
      if steps == [] { EmptyStage(i, o); }
      if !s.err {
        StagesMarks(plan, s, i + 1, f, o);
      }
    }
  }

  // ---- stages and steps, read off the markers ----

  function StagesIn(ms: seq<Mark>): seq<string> {
    if ms == [] then []
    else StagesIn(ms[..|ms| - 1]) + if ms[|ms| - 1].StageMark? then [ms[|ms| - 1].name] else []
  }

  function CurrentIn(ms: seq<Mark>): Option<string> {
    if ms == [] then None
    else if ms[|ms| - 1].StageMark? then Some(ms[|ms| - 1].name)
    else CurrentIn(ms[..|ms| - 1])
  }

  /** The steps marked in stage `n` since it was last begun. */
  function StepsIn(ms: seq<Mark>, n: string): seq<string> {
    if ms == [] then []
    else
      var past, m := ms[..|ms| - 1], ms[|ms| - 1];
      if m.StageMark? then (if m.name == n then [] else StepsIn(past, n))
      else if CurrentIn(past) == Some(n) then StepsIn(past, n) + [m.name]
      else StepsIn(past, n)
  }

  lemma AddStepMark(ms: seq<Mark>, name: string, n: string)
    ensures var r := ms + [StepMark(name)];
            && StagesIn(r) == StagesIn(ms) && CurrentIn(r) == CurrentIn(ms)
            && StepsIn(r, n) == if CurrentIn(ms) == Some(n) then StepsIn(ms, n) + [name] else StepsIn(ms, n)
  {
    assert (ms + [StepMark(name)])[..|ms|] == ms;
  }

  lemma AddStageMark(ms: seq<Mark>, name: string, n: string)
    ensures var r := ms + [StageMark(name)];
            && StagesIn(r) == StagesIn(ms) + [name] && CurrentIn(r) == Some(name)
            && StepsIn(r, n) == if name == n then [] else StepsIn(ms, n)
  {
    assert (ms + [StageMark(name)])[..|ms|] == ms;
  }

  lemma NothingMarked()
    ensures StagesIn([]) == [] && CurrentIn([]) == None && forall n :: StepsIn([], n) == []
  {
  }

  // ---- the steps of one stage ----

  /** The names of the steps from `start` to before `end`. */
  function StepNamesBetween(steps: seq<Step>, start: nat, end: nat): seq<string>
    decreases end
  {
    if end <= start || end > |steps| then [] else StepNamesBetween(steps, start, end - 1) + [steps[end - 1].name]
  }

  /** The first step before `end` that opens a stage, and the last. */
  function FirstOpen(steps: seq<Step>, i: nat, end: nat, f: Option<RunSpec.Call>, o: RunSpec.Oracle): (r: Option<nat>)
    ensures r.Some? ==> r.value < end
    decreases end
  {
    if end == 0 || end > |steps| then None
    else
      var r := FirstOpen(steps, i, end - 1, f, o);
      if r.Some? then r else if Opens(steps, i, end - 1, f, o) then Some(end - 1) else None
  }

  function LastOpen(steps: seq<Step>, i: nat, end: nat, f: Option<RunSpec.Call>, o: RunSpec.Oracle): (r: Option<nat>)
    ensures r.Some? ==> r.value < end
    decreases end
  {
    if end == 0 || end > |steps| then None
    else if Opens(steps, i, end - 1, f, o) then Some(end - 1)
    else LastOpen(steps, i, end - 1, f, o)
  }

  /** A name for each of them. */
  function OpenedNames(steps: seq<Step>, i: nat, end: nat, f: Option<RunSpec.Call>, o: RunSpec.Oracle): seq<string>
    decreases end
  {
    if end == 0 || end > |steps| then []
    else
      OpenedNames(steps, i, end - 1, f, o)
      + if Opens(steps, i, end - 1, f, o) then [RunSpec.ARTIFACTORY_STAGE] else []
  }

  /** Where the steps shown in stage `i` itself end: after the first that opens a stage, or at `end`. */
  function ShownEnd(steps: seq<Step>, i: nat, end: nat, f: Option<RunSpec.Call>, o: RunSpec.Oracle): nat {
    match FirstOpen(steps, i, end, f, o)
    case None => end
    case Some(a) => a + 1
  }

  /** The steps shown in stage `n` after `end` steps of stage `i`, when it was `current` and showed `before`. */
  function ShownAfter(steps: seq<Step>, i: nat, end: nat, f: Option<RunSpec.Call>, o: RunSpec.Oracle, n: string,
                      current: bool, before: seq<string>): seq<string> {
    if n == RunSpec.ARTIFACTORY_STAGE && LastOpen(steps, i, end, f, o).Some? then
      StepNamesBetween(steps, LastOpen(steps, i, end, f, o).value + 1, end)
    else if current then before + StepNamesBetween(steps, 0, ShownEnd(steps, i, end, f, o))
    else before
  }

  lemma AddOneStep(ms: seq<Mark>, steps: seq<Step>, i: nat, j: nat, f: Option<RunSpec.Call>, o: RunSpec.Oracle,
                   n: string)
    requires j < |steps|
    ensures var r, open := ms + OneStep(steps, i, j, f, o), Opens(steps, i, j, f, o);
            && StagesIn(r) == StagesIn(ms) + (if open then [RunSpec.ARTIFACTORY_STAGE] else [])
            && CurrentIn(r) == (if open then Some(RunSpec.ARTIFACTORY_STAGE) else CurrentIn(ms))
            && StepsIn(r, n) == if open && n == RunSpec.ARTIFACTORY_STAGE then []
                                else if CurrentIn(ms) == Some(n) then StepsIn(ms, n) + [steps[j].name]
                                else StepsIn(ms, n)
  {
    hide StagesIn, StepsIn, CurrentIn, Opens;
    var step, open := [StepMark(steps[j].name)], [StageMark(RunSpec.ARTIFACTORY_STAGE)];
    AddStepMark(ms, steps[j].name, n);
    if Opens(steps, i, j, f, o) {
      AddStageMark(ms + step, RunSpec.ARTIFACTORY_STAGE, n);
      assert ms + OneStep(steps, i, j, f, o) == ms + step + open;
    } else {
      assert ms + OneStep(steps, i, j, f, o) == ms + step;
    }
  }

  lemma ShownAfterStep(steps: seq<Step>, i: nat, end: nat, f: Option<RunSpec.Call>, o: RunSpec.Oracle, n: string,
                       current: bool, before: seq<string>)
    requires 0 < end <= |steps|
    ensures var past, open := ShownAfter(steps, i, end - 1, f, o, n, current, before), Opens(steps, i, end - 1, f, o);
            var now := if LastOpen(steps, i, end - 1, f, o).Some? then n == RunSpec.ARTIFACTORY_STAGE else current;
            ShownAfter(steps, i, end, f, o, n, current, before)
            == if open && n == RunSpec.ARTIFACTORY_STAGE then []
               else if now then past + [steps[end - 1].name]
               else past
  {
    hide Opens;
    FirstIfLast(steps, i, end - 1, f, o);
    Regroup(before, StepNamesBetween(steps, 0, end - 1), [steps[end - 1].name]);
  }

  lemma {:induction false} AddStepMarks(ms: seq<Mark>, steps: seq<Step>, i: nat, end: nat, f: Option<RunSpec.Call>,
                                        o: RunSpec.Oracle, n: string)
    requires end <= |steps|
    ensures var r := ms + StepMarks(steps, i, 0, end, f, o);
            && StagesIn(r) == StagesIn(ms) + OpenedNames(steps, i, end, f, o)
            && CurrentIn(r) == (if LastOpen(steps, i, end, f, o).Some? then Some(RunSpec.ARTIFACTORY_STAGE)
                                else CurrentIn(ms))
            && StepsIn(r, n) == ShownAfter(steps, i, end, f, o, n, CurrentIn(ms) == Some(n), StepsIn(ms, n))
    decreases end
  {
    hide StagesIn, StepsIn, CurrentIn, StepMarks, Opens, OneStep, ShownAfter;
    if end == 0 {
      NoStepMarks(steps, i, f, o);
      assert ms + StepMarks(steps, i, 0, 0, f, o) == ms;
      NothingShownAfter(steps, i, f, o, n, CurrentIn(ms) == Some(n), StepsIn(ms, n));
    } else {
      AddStepMarks(ms, steps, i, end - 1, f, o, n);
      StepMarksSnoc(steps, i, 0, end, f, o);
      var past, step := StepMarks(steps, i, 0, end - 1, f, o), OneStep(steps, i, end - 1, f, o);
      AddOneStep(ms + past, steps, i, end - 1, f, o, n);
      ShownAfterStep(steps, i, end, f, o, n, CurrentIn(ms) == Some(n), StepsIn(ms, n));
      Regroup(ms, past, step);
    }
  }

  lemma NothingShownAfter(steps: seq<Step>, i: nat, f: Option<RunSpec.Call>, o: RunSpec.Oracle, n: string,
                          current: bool, before: seq<string>)
    ensures ShownAfter(steps, i, 0, f, o, n, current, before) == before
  {
  }

  lemma {:induction false} FirstIfLast(steps: seq<Step>, i: nat, end: nat, f: Option<RunSpec.Call>, o: RunSpec.Oracle)
    ensures FirstOpen(steps, i, end, f, o).Some? <==> LastOpen(steps, i, end, f, o).Some?
    ensures FirstOpen(steps, i, end, f, o).None? <==> OpenedNames(steps, i, end, f, o) == []
    ensures FirstOpen(steps, i, end, f, o).None? && end <= |steps| <==>
            end <= |steps| && forall j :: 0 <= j < end ==> !Opens(steps, i, j, f, o)
    decreases end
  {
    hide Opens;
    if 0 < end <= |steps| {
      FirstIfLast(steps, i, end - 1, f, o);
    }
  }

  lemma NoStepMarks(steps: seq<Step>, i: nat, f: Option<RunSpec.Call>, o: RunSpec.Oracle)
    ensures StepMarks(steps, i, 0, 0, f, o) == []
  {
  }

  lemma {:induction false} StepMarksSnoc(steps: seq<Step>, i: nat, j: nat, end: nat, f: Option<RunSpec.Call>,
                                         o: RunSpec.Oracle)
    requires j < end <= |steps|
    ensures StepMarks(steps, i, j, end, f, o)
            == StepMarks(steps, i, j, end - 1, f, o) + OneStep(steps, i, end - 1, f, o)
    decreases end - j
  {
    hide OneStep;
    if j + 1 < end {
      StepMarksSnoc(steps, i, j + 1, end, f, o);
    } else {
      assert StepMarks(steps, i, end, end, f, o) == [] && StepMarks(steps, i, j, j, f, o) == [];
    }
  }

  // ---- the stages of a plan ----

  /** One stage's markers after `ms`. */
  function WithStage(ms: seq<Mark>, plan: seq<StageDetail>, i: nat, f: Option<RunSpec.Call>,
                     o: RunSpec.Oracle): seq<Mark>
    requires i < |plan|
  {
    var steps := plan[i].stage.steps;
    ms + [StageMark(plan[i].name)] + StepMarks(steps, i, 0, StopAt(steps, i, f), f, o)
  }

  /** The stages the log shows for stage `i`: itself, and one for each step that opens one. */
  function ShownFor(plan: seq<StageDetail>, i: nat, f: Option<RunSpec.Call>, o: RunSpec.Oracle): seq<string>
    requires i < |plan|
  {
    [plan[i].name] + OpenedNames(plan[i].stage.steps, i, StopAt(plan[i].stage.steps, i, f), f, o)
  }

  lemma AddStageMarks(ms: seq<Mark>, plan: seq<StageDetail>, i: nat, f: Option<RunSpec.Call>, o: RunSpec.Oracle,
                      n: string)
    requires i < |plan| && StopAt(plan[i].stage.steps, i, f) <= |plan[i].stage.steps|
    ensures var r, steps := WithStage(ms, plan, i, f, o), plan[i].stage.steps;
            && StagesIn(r) == StagesIn(ms) + ShownFor(plan, i, f, o)
            && StepsIn(r, n) == ShownAfter(steps, i, StopAt(steps, i, f), f, o, n, plan[i].name == n,
                                           if plan[i].name == n then [] else StepsIn(ms, n))
  {
    hide StagesIn, StepsIn, CurrentIn, StepMarks, StepNamesBetween, ShownAfter, OpenedNames;
    var steps := plan[i].stage.steps;
    AddStageMark(ms, plan[i].name, n);
    AddStepMarks(ms + [StageMark(plan[i].name)], steps, i, StopAt(steps, i, f), f, o, n);
    Regroup(StagesIn(ms), [plan[i].name], OpenedNames(steps, i, StopAt(steps, i, f), f, o));
  }

  /** The names of stages `i` up to where the plan stops. */
  function StartedNames(plan: seq<StageDetail>, i: nat, f: Option<RunSpec.Call>): seq<string>
    decreases |plan| - i
  {
    if i >= |plan| then []
    else
      [plan[i].name] + if Stops(plan, i, f) then [] else StartedNames(plan, i + 1, f)
  }

  /** With the stages that steps opened among them. */
  function ShownNames(plan: seq<StageDetail>, i: nat, f: Option<RunSpec.Call>, o: RunSpec.Oracle): seq<string>
    decreases |plan| - i
  {
    if i >= |plan| then []
    else
      ShownFor(plan, i, f, o) + if Stops(plan, i, f) then [] else ShownNames(plan, i + 1, f, o)
  }

  predicate Starts(plan: seq<StageDetail>, f: Option<RunSpec.Call>, k: nat) {
    FatalInPlan(plan, f) ==> k <= f.value.stage
  }

  ghost predicate InRange(plan: seq<StageDetail>, f: Option<RunSpec.Call>) {
    f.Some? ==> f.value.stage < |plan| && f.value.step < |plan[f.value.stage].stage.steps|
  }

  /** The first stage's markers, then the rest. */
  lemma PlanMarksStep(plan: seq<StageDetail>, ms: seq<Mark>, i: nat, f: Option<RunSpec.Call>, o: RunSpec.Oracle)
    requires i < |plan|
    ensures var r := WithStage(ms, plan, i, f, o);
            ms + PlanMarks(plan, i, f, o) == if Stops(plan, i, f) then r else r + PlanMarks(plan, i + 1, f, o)
  {
    hide StepMarks, StopAt, Fatal;
    var steps := plan[i].stage.steps;
    Associate(ms, [StageMark(plan[i].name)], StepMarks(steps, i, 0, StopAt(steps, i, f), f, o),
              if Stops(plan, i, f) then [] else PlanMarks(plan, i + 1, f, o));
  }

  lemma Associate<T>(a: seq<T>, b: seq<T>, c: seq<T>, d: seq<T>)
    ensures a + (b + c + d) == a + b + c + d
    ensures d == [] ==> a + (b + c + d) == a + b + c
  {
  }

  lemma {:induction false} PlanMarksStages(plan: seq<StageDetail>, ms: seq<Mark>, i: nat, f: Option<RunSpec.Call>,
                                           o: RunSpec.Oracle)
    requires InRange(plan, f)
    ensures StagesIn(ms + PlanMarks(plan, i, f, o)) == StagesIn(ms) + ShownNames(plan, i, f, o)
    decreases |plan| - i
  {
    hide StagesIn, StepsIn, WithStage, Stops, ShownFor, ShownAfter;
    if i >= |plan| {
      assert ms + PlanMarks(plan, i, f, o) == ms;
    } else {
      hide PlanMarks;
      PlanMarksStep(plan, ms, i, f, o);
      AddStageMarks(ms, plan, i, f, o, "");
      if !Stops(plan, i, f) {
        PlanMarksStages(plan, WithStage(ms, plan, i, f, o), i + 1, f, o);
        Regroup(StagesIn(ms), ShownFor(plan, i, f, o), ShownNames(plan, i + 1, f, o));
      } else {
        assert ShownFor(plan, i, f, o) + [] == ShownFor(plan, i, f, o);
      }
    }
  }

  lemma {:induction false} PlanMarksOfOthers(plan: seq<StageDetail>, ms: seq<Mark>, i: nat, f: Option<RunSpec.Call>,
                                             o: RunSpec.Oracle, n: string)
    requires InRange(plan, f) && n != RunSpec.ARTIFACTORY_STAGE && forall k :: i <= k < |plan| ==> plan[k].name != n
    ensures StepsIn(ms + PlanMarks(plan, i, f, o), n) == StepsIn(ms, n)
    decreases |plan| - i
  {
    hide StagesIn, StepsIn, StepNamesBetween, WithStage, Stops, ShownFor;
    if i >= |plan| {
      assert ms + PlanMarks(plan, i, f, o) == ms;
    } else {
      hide PlanMarks;
      PlanMarksStep(plan, ms, i, f, o);
      AddStageMarks(ms, plan, i, f, o, n);
      if !Stops(plan, i, f) {
        PlanMarksOfOthers(plan, WithStage(ms, plan, i, f, o), i + 1, f, o, n);
      }
    }
  }

  /** A stage of another name shows its own steps, up to the first that opens a stage. */
  lemma {:induction false} PlanMarksSteps(plan: seq<StageDetail>, ms: seq<Mark>, i: nat, f: Option<RunSpec.Call>,
                                          o: RunSpec.Oracle, k: nat)
    requires Scheduling.Distinct(plan) && InRange(plan, f) && i <= k < |plan|
    requires plan[k].name != RunSpec.ARTIFACTORY_STAGE
    requires FatalInPlan(plan, f) ==> f.value.stage >= i
    ensures var steps := plan[k].stage.steps;
            StepsIn(ms + PlanMarks(plan, i, f, o), plan[k].name)
            == if Starts(plan, f, k) then StepNamesBetween(steps, 0, ShownEnd(steps, k, StopAt(steps, k, f), f, o))
               else StepsIn(ms, plan[k].name)
    decreases |plan| - i
  {
    hide StagesIn, StepsIn, StepNamesBetween, WithStage, PlanMarks, Fatal, ShownFor, ShownEnd, StopAt;
    StopsInRange(plan, i, f);
    PlanMarksStep(plan, ms, i, f, o);
    AddStageMarks(ms, plan, i, f, o, plan[k].name);
    if !Stops(plan, i, f) {
      if k == i {
        PlanMarksOfOthers(plan, WithStage(ms, plan, i, f, o), i + 1, f, o, plan[k].name);
      } else {
        PlanMarksSteps(plan, WithStage(ms, plan, i, f, o), i + 1, f, o, k);
      }
    }
    if k == i {
      var steps := plan[k].stage.steps;
      var shown := StepNamesBetween(steps, 0, ShownEnd(steps, k, StopAt(steps, k, f), f, o));
      assert [] + shown == shown;
    }
  }

  lemma StopsInRange(plan: seq<StageDetail>, i: nat, f: Option<RunSpec.Call>)
    requires InRange(plan, f) && i < |plan|
    ensures StopAt(plan[i].stage.steps, i, f) <= |plan[i].stage.steps|
  {
  }

  /** Where the stage called "artifactory" is last begun, by a stage of the plan or by one of its steps: the stage,
      and the first of its steps shown there. */
  function LastOpening(plan: seq<StageDetail>, i: nat, f: Option<RunSpec.Call>,
                       o: RunSpec.Oracle): (r: Option<(nat, nat)>)
    ensures r.Some? ==> r.value.0 < |plan|
    decreases |plan| - i
  {
    if i >= |plan| then None
    else
      var later := if Stops(plan, i, f) then None else LastOpening(plan, i + 1, f, o);
      var steps := plan[i].stage.steps;
      var open := LastOpen(steps, i, StopAt(steps, i, f), f, o);
      if later.Some? then later
      else if open.Some? then Some((i, open.value + 1))
      else if plan[i].name == RunSpec.ARTIFACTORY_STAGE then Some((i, 0))
      else None
  }

  /** The steps shown there. */
  function StepsAtOpening(plan: seq<StageDetail>, f: Option<RunSpec.Call>, at: Option<(nat, nat)>): seq<string>
    requires at.Some? ==> at.value.0 < |plan|
  {
    match at
    case None => []
    case Some((k, start)) => StepNamesBetween(plan[k].stage.steps, start, StopAt(plan[k].stage.steps, k, f))
  }

  lemma {:induction false} PlanMarksArtifactory(plan: seq<StageDetail>, ms: seq<Mark>, i: nat, f: Option<RunSpec.Call>,
                                                o: RunSpec.Oracle)
    requires InRange(plan, f)
    ensures var at := LastOpening(plan, i, f, o);
            StepsIn(ms + PlanMarks(plan, i, f, o), RunSpec.ARTIFACTORY_STAGE)
            == if at.Some? then StepsAtOpening(plan, f, at) else StepsIn(ms, RunSpec.ARTIFACTORY_STAGE)
    decreases |plan| - i
  {
    hide StagesIn, StepsIn, StepNamesBetween, WithStage, Stops, ShownFor, StopAt;
    if i >= |plan| {
      assert ms + PlanMarks(plan, i, f, o) == ms;
    } else {
      hide PlanMarks;
      var steps := plan[i].stage.steps;
      StopsInRange(plan, i, f);
      PlanMarksStep(plan, ms, i, f, o);
      AddStageMarks(ms, plan, i, f, o, RunSpec.ARTIFACTORY_STAGE);
      FirstIfLast(steps, i, StopAt(steps, i, f), f, o);
      var own := StepNamesBetween(steps, 0, StopAt(steps, i, f));
      assert [] + own == own;
      if !Stops(plan, i, f) {
        PlanMarksArtifactory(plan, WithStage(ms, plan, i, f, o), i + 1, f, o);
      }
    }
  }

  /** A stage is named exactly when the run gets as far as it. */
  lemma {:induction false} StartedAre(plan: seq<StageDetail>, i: nat, f: Option<RunSpec.Call>, k: nat)
    requires Scheduling.Distinct(plan) && i <= k < |plan| && (FatalInPlan(plan, f) ==> f.value.stage >= i)
    ensures plan[k].name in StartedNames(plan, i, f) <==> Starts(plan, f, k)
    decreases |plan| - i
  {
    hide Fatal;
    if !Stops(plan, i, f) {
      if k > i {
        StartedAre(plan, i + 1, f, k);
      }
    } else {
      assert [plan[i].name] + [] == [plan[i].name];
    }
  }

  // ---- when no step opens a stage ----

  /** No step of the stages from `i` on that the run gets to opens a stage. */
  predicate NoneOpens(plan: seq<StageDetail>, i: nat, f: Option<RunSpec.Call>, o: RunSpec.Oracle) {
    forall k, j :: i <= k < |plan| && 0 <= j < |plan[k].stage.steps| ==> !Opens(plan[k].stage.steps, k, j, f, o)
  }

  /** A step that opens a stage is performed. */
  lemma OpenIsPerformed(plan: seq<StageDetail>, k: nat, j: nat, f: Option<RunSpec.Call>, o: RunSpec.Oracle)
    requires k < |plan| && j < |plan[k].stage.steps| && Opens(plan[k].stage.steps, k, j, f, o)
    ensures Starts(plan, f, k) && j < StopAt(plan[k].stage.steps, k, f)
  {
  }

  /** The log shows more stages than were started, one for each step that opens one. */
  lemma {:induction false} ShownAreStartedIff(plan: seq<StageDetail>, i: nat, f: Option<RunSpec.Call>,
                                              o: RunSpec.Oracle)
    requires InRange(plan, f) && (FatalInPlan(plan, f) ==> f.value.stage >= i)
    ensures |ShownNames(plan, i, f, o)| >= |StartedNames(plan, i, f)|
    ensures |ShownNames(plan, i, f, o)| == |StartedNames(plan, i, f)| <==> NoneOpens(plan, i, f, o)
    ensures NoneOpens(plan, i, f, o) ==> ShownNames(plan, i, f, o) == StartedNames(plan, i, f)
    decreases |plan| - i
  {
    hide NoneOpens, StopAt, OpenedNames, Fatal;
    if i >= |plan| {
      NoneOpensPastEnd(plan, i, f, o);
    } else {
      NoneOpensStep(plan, i, f, o);
      var more := OpenedNames(plan[i].stage.steps, i, StopAt(plan[i].stage.steps, i, f), f, o);
      assert |ShownFor(plan, i, f, o)| == 1 + |more|;
      assert more == [] ==> ShownFor(plan, i, f, o) == [plan[i].name];
      if !Stops(plan, i, f) {
        ShownAreStartedIff(plan, i + 1, f, o);
      }
    }
  }

  lemma NoneOpensPastEnd(plan: seq<StageDetail>, i: nat, f: Option<RunSpec.Call>, o: RunSpec.Oracle)
    requires i >= |plan|
    ensures NoneOpens(plan, i, f, o)
  {
  }

  lemma NoneOpensStep(plan: seq<StageDetail>, i: nat, f: Option<RunSpec.Call>, o: RunSpec.Oracle)
    requires i < |plan| && InRange(plan, f) && (FatalInPlan(plan, f) ==> f.value.stage >= i)
    ensures var steps := plan[i].stage.steps;
            NoneOpens(plan, i, f, o)
            <==> OpenedNames(steps, i, StopAt(steps, i, f), f, o) == []
                 && (Stops(plan, i, f) || NoneOpens(plan, i + 1, f, o))
  {
    hide Opens, StopAt, OpenedNames, FirstOpen, LastOpen, Fatal;
    var steps := plan[i].stage.steps;
    StopsInRange(plan, i, f);
    FirstIfLast(steps, i, StopAt(steps, i, f), f, o);
    forall k, j | i <= k < |plan| && 0 <= j < |plan[k].stage.steps| && Opens(plan[k].stage.steps, k, j, f, o)
      ensures Starts(plan, f, k) && j < StopAt(plan[k].stage.steps, k, f)
    {
      OpenIsPerformed(plan, k, j, f, o);
    }
  }

  lemma MemberUpTo(a: seq<RunSpec.Call>, b: seq<RunSpec.Call>, o: RunSpec.Oracle, c: RunSpec.Call)
    ensures c in UpTo(a + b, o) <==> c in UpTo(a, o) || (FirstFailure(a, o).None? && c in UpTo(b, o))
  {
    hide UpTo, FirstFailure;
    UpToAppend(a, b, o);
  }

  /** Which actions of steps are attempted, read off the first failure. */
  lemma {:induction false} StepUpTo(steps: seq<Step>, i: nat, j: nat, o: RunSpec.Oracle, c: RunSpec.Call)
    requires c.kind.StepAction?
    ensures c in UpTo(StepCalls(steps, i, j), o) <==>
            && c.stage == i && j <= c.step < |steps| && RunSpec.HasAction(steps[c.step])
            && Attempted(FirstFailure(StepCalls(steps, i, j), o), i, c.step)
    decreases |steps| - j
  {
    hide UpTo, FirstFailure, RunSpec.HasAction;
    if j >= |steps| {
      NothingUpTo(o);
    } else {
      var first, second := ContainerCalls(steps[j], i, j), ActionCalls(steps[j], i, j);
      var rest := StepCalls(steps, i, j + 1);
      StepUpTo(steps, i, j + 1, o, c);
      FirstFailureFromStep(steps, i, j, o);
      CallsAreInRange(steps, i, j + 1, o);
      MemberUpTo(first, second + rest, o, c);
      MemberUpTo(second, rest, o, c);
      OneCall(RunSpec.Call(i, j, RunSpec.ContainerStart), o);
      OneCall(RunSpec.Call(i, j, RunSpec.StepAction), o);
      NoCall(o);
      NothingUpTo(o);
    }
  }

  lemma NothingUpTo(o: RunSpec.Oracle)
    ensures UpTo([], o) == []
  {
  }

  lemma {:induction false} PlanUpTo(plan: seq<StageDetail>, i: nat, o: RunSpec.Oracle, c: RunSpec.Call)
    requires c.kind.StepAction?
    ensures c in UpTo(Calls(plan, i), o) <==>
            && i <= c.stage < |plan| && c.step < |plan[c.stage].stage.steps|
            && RunSpec.HasAction(plan[c.stage].stage.steps[c.step])
            && Attempted(FirstFailure(Calls(plan, i), o), c.stage, c.step)
    decreases |plan| - i
  {
    hide UpTo, FirstFailure, StepCalls, RunSpec.HasAction;
    if i >= |plan| {
      NothingUpTo(o);
    } else {
      var steps := plan[i].stage.steps;
      StepUpTo(steps, i, 0, o, c);
      PlanUpTo(plan, i + 1, o, c);
      MemberUpTo(StepCalls(steps, i, 0), Calls(plan, i + 1), o, c);
      RunTheorems.FirstFailureFromStage(plan, i, o);
      if FirstFailure(StepCalls(steps, i, 0), o).None? && c.stage == i {
        assert Attempted(FirstFailure(Calls(plan, i), o), i, c.step);
      }
    }
  }

  /** No action that begins a stage of its own gets as far as its `Hook`. */
  ghost predicate NoStageOpened(plan: seq<StageDetail>, mkdirFailed: bool, o: RunSpec.Oracle) {
    || Stillborn(plan, mkdirFailed)
    || forall c :: c in UpTo(Calls(plan, 0), o) && OpensStage(plan, c) ==> o(c) == RunSpec.PreError
  }

  lemma NoneOpensIff(plan: seq<StageDetail>, o: RunSpec.Oracle)
    ensures NoneOpens(plan, 0, RunTheorems.Decisive(plan, o), o)
            <==> forall c :: c in UpTo(Calls(plan, 0), o) && OpensStage(plan, c) ==> o(c) == RunSpec.PreError
  {
    hide UpTo, Calls, RunSpec.HandlerOf, RunSpec.WritesStage, FirstFailure;
    var f := RunTheorems.Decisive(plan, o);
    forall c: RunSpec.Call | OpensStage(plan, c)
      ensures c in UpTo(Calls(plan, 0), o) && o(c) != RunSpec.PreError
              <==> Opens(plan[c.stage].stage.steps, c.stage, c.step, f, o)
    {
      PlanUpTo(plan, 0, o, c);
      ArtifactoryHasAction(plan[c.stage].stage.steps[c.step]);
      assert c == RunSpec.Call(c.stage, c.step, RunSpec.StepAction);
    }
    forall k, j | 0 <= k < |plan| && 0 <= j < |plan[k].stage.steps| && Opens(plan[k].stage.steps, k, j, f, o)
      ensures OpensStage(plan, RunSpec.Call(k, j, RunSpec.StepAction))
    {
    }
  }

  // ---- the markers of a whole run ----

  /** The markers of a run that was not stillborn. */
  lemma RunMarksAre(plan: seq<StageDetail>, mkdirFailed: bool, o: RunSpec.Oracle)
    requires !Stillborn(plan, mkdirFailed)
    ensures var f := RunTheorems.Decisive(plan, o);
            InRange(plan, f) && RunMarks(plan, RunSpec.Run(plan, mkdirFailed, o).trace) == PlanMarks(plan, 0, f, o)
  {
    hide RunMarks, PlanMarks, FirstFailure, Calls, RunSpec.RunStages;
    var st, f := RunSpec.Initial(plan, mkdirFailed), RunTheorems.Decisive(plan, o);
    StagesMarks(plan, st, 0, f, o);
    ConcludeMarks(plan, RunSpec.RunStages(plan, st, 0, o));
    RunTheorems.CallsComeFrom(plan, 0, o);
    NoMarks(plan);
    assert [] + PlanMarks(plan, 0, f, o) == PlanMarks(plan, 0, f, o);
  }

  lemma NoMarks(plan: seq<StageDetail>)
    ensures RunMarks(plan, []) == []
  {
  }

  /** The stages a run starts. One that ends because of its working directory starts the first, if any. */
  function StagesStarted(plan: seq<StageDetail>, mkdirFailed: bool, f: Option<RunSpec.Call>): seq<string> {
    if !Stillborn(plan, mkdirFailed) then StartedNames(plan, 0, f)
    else if plan == [] then []
    else [plan[0].name]
  }

  /** The stages its log shows. */
  function StagesShown(plan: seq<StageDetail>, mkdirFailed: bool, f: Option<RunSpec.Call>,
                       o: RunSpec.Oracle): seq<string> {
    if Stillborn(plan, mkdirFailed) then StagesStarted(plan, mkdirFailed, f) else ShownNames(plan, 0, f, o)
  }

  predicate IsStarted(plan: seq<StageDetail>, mkdirFailed: bool, f: Option<RunSpec.Call>, k: nat) {
    if Stillborn(plan, mkdirFailed) then k == 0 else Starts(plan, f, k)
  }

  /** The steps its log shows in stage `k`, if that is not called "artifactory". */
  function StepsShown(plan: seq<StageDetail>, mkdirFailed: bool, f: Option<RunSpec.Call>, o: RunSpec.Oracle, k: nat)
    : seq<string>
    requires k < |plan|
  {
    var steps := plan[k].stage.steps;
    if Stillborn(plan, mkdirFailed) then []
    else StepNamesBetween(steps, 0, ShownEnd(steps, k, StopAt(steps, k, f), f, o))
  }

  /** The steps its log shows in the stage called "artifactory". */
  function ArtifactorySteps(plan: seq<StageDetail>, mkdirFailed: bool, f: Option<RunSpec.Call>,
                            o: RunSpec.Oracle): seq<string> {
    if Stillborn(plan, mkdirFailed) then [] else StepsAtOpening(plan, f, LastOpening(plan, 0, f, o))
  }

  lemma StillbornMarks(plan: seq<StageDetail>, mkdirFailed: bool, o: RunSpec.Oracle)
    requires Stillborn(plan, mkdirFailed)
    ensures RunMarks(plan, RunSpec.Run(plan, mkdirFailed, o).trace)
            == if plan == [] then [] else [StageMark(plan[0].name)]
  {
    hide RunMarks, RunSpec.RunStages;
    var st := RunSpec.Initial(plan, mkdirFailed);
    RunTheorems.StillbornRun(plan, st, o);
    NoMarks(plan);
    if plan != [] {
      BeginStageMarks(plan, st, 0);
      EndStageMarks(plan, RunSpec.BeginStage(st, 0), 0);
    }
    ConcludeMarks(plan, RunSpec.RunStages(plan, st, 0, o));
  }

  /** What the markers of any run say of its stages, in all and one by one. */
  lemma MarksShow(plan: seq<StageDetail>, mkdirFailed: bool, o: RunSpec.Oracle, k: nat)
    requires Scheduling.Distinct(plan)
    ensures var f := RunTheorems.Decisive(plan, o);
            var ms := RunMarks(plan, RunSpec.Run(plan, mkdirFailed, o).trace);
            && StagesIn(ms) == StagesShown(plan, mkdirFailed, f, o)
            && StepsIn(ms, RunSpec.ARTIFACTORY_STAGE) == ArtifactorySteps(plan, mkdirFailed, f, o)
            && (k < |plan| && IsStarted(plan, mkdirFailed, f, k) && plan[k].name != RunSpec.ARTIFACTORY_STAGE ==>
                  StepsIn(ms, plan[k].name) == StepsShown(plan, mkdirFailed, f, o, k))
  {
    hide StagesIn, StepsIn, RunMarks, RunSpec.Run, PlanMarks, ShownNames, StepNamesBetween, RunTheorems.Decisive;
    hide StopAt;
    hide Starts, ShownEnd, LastOpening, StepsAtOpening, Stillborn, Scheduling.Distinct;
    var f := RunTheorems.Decisive(plan, o);
    if Stillborn(plan, mkdirFailed) {
      StillbornMarks(plan, mkdirFailed, o);
      StillbornMarksShow(plan, k);
    } else {
      RunMarksAre(plan, mkdirFailed, o);
      PlanMarksShow(plan, f, o, k);
    }
  }

  lemma StillbornMarksShow(plan: seq<StageDetail>, k: nat)
    ensures var ms := if plan == [] then [] else [StageMark(plan[0].name)];
            && StagesIn(ms) == (if plan == [] then [] else [plan[0].name])
            && StepsIn(ms, RunSpec.ARTIFACTORY_STAGE) == []
            && (k < |plan| ==> StepsIn(ms, plan[k].name) == [])
  {
    hide StagesIn, StepsIn;
    NothingMarked();
    if plan != [] {
      AddStageMark([], plan[0].name, RunSpec.ARTIFACTORY_STAGE);
      if k < |plan| { AddStageMark([], plan[0].name, plan[k].name); }
      assert [] + [StageMark(plan[0].name)] == [StageMark(plan[0].name)] && [] + [plan[0].name] == [plan[0].name];
    }
  }

  lemma PlanMarksShow(plan: seq<StageDetail>, f: Option<RunSpec.Call>, o: RunSpec.Oracle, k: nat)
    requires Scheduling.Distinct(plan) && InRange(plan, f)
    ensures var ms := PlanMarks(plan, 0, f, o);
            && StagesIn(ms) == ShownNames(plan, 0, f, o)
            && StepsIn(ms, RunSpec.ARTIFACTORY_STAGE) == StepsAtOpening(plan, f, LastOpening(plan, 0, f, o))
            && (k < |plan| && Starts(plan, f, k) && plan[k].name != RunSpec.ARTIFACTORY_STAGE ==>
                  var steps := plan[k].stage.steps;
                  StepsIn(ms, plan[k].name)
                  == StepNamesBetween(steps, 0, ShownEnd(steps, k, StopAt(steps, k, f), f, o)))
  {
    hide StagesIn, StepsIn, PlanMarks, ShownNames, StepNamesBetween, StopAt, Starts, ShownEnd, LastOpening;
    hide StepsAtOpening;
    hide Scheduling.Distinct;
    var ms := PlanMarks(plan, 0, f, o);
    NothingMarked();
    NothingAtOpening(plan, f);
    assert [] + ms == ms && [] + ShownNames(plan, 0, f, o) == ShownNames(plan, 0, f, o);
    PlanMarksStages(plan, [], 0, f, o);
    PlanMarksArtifactory(plan, [], 0, f, o);
    if k < |plan| && plan[k].name != RunSpec.ARTIFACTORY_STAGE {
      PlanMarksSteps(plan, [], 0, f, o, k);
    }
  }

  lemma NothingAtOpening(plan: seq<StageDetail>, f: Option<RunSpec.Call>)
    ensures StepsAtOpening(plan, f, None) == []
  {
  }
}
