/** What the saved job details and the stage starts of a run show. */
module StageRecords {
  import opened Model
  import opened RunSpec

  /** The plan's stages with those before `k` succeeded, `k` at `s`, and those after it not run. */
  ghost predicate Marked(plan: seq<StageDetail>, stages: seq<StageDetail>, k: nat, s: Status) {
    && |stages| == |plan|
    && forall m :: 0 <= m < |plan| ==>
      && stages[m].name == plan[m].name
      && stages[m].stage.needs == plan[m].stage.needs
      && stages[m].status == if m < k then Success else if m == k then s else NotRun
  }

  /** SUCCESS*, at most one RUNNING or FAIL, NOTRUN*. */
  ghost predicate WellShaped(plan: seq<StageDetail>, stages: seq<StageDetail>) {
    exists k: nat, s :: k <= |plan| && s in {NotRun, Running, Fail} && Marked(plan, stages, k, s)
  }

  ghost predicate SavedShaped(plan: seq<StageDetail>, saved: seq<Snapshot>) {
    forall k :: 0 <= k < |saved| ==> WellShaped(plan, saved[k].stages)
  }

  /** Each stage starts with all stages before it succeeded and no later one started. */
  ghost predicate StartsInTurn(plan: seq<StageDetail>, t: seq<Event>) {
    forall k :: 0 <= k < |t| && t[k].StageStart? ==>
        t[k].stage < |plan| && Marked(plan, t[k].stages, t[k].stage, NotRun)
  }

  ghost predicate Recorded(plan: seq<StageDetail>, st: RunState, k: nat, s: Status) {
    && k <= |plan|
    && Marked(plan, st.stages, k, s)
    && SavedShaped(plan, st.saved)
    && StartsInTurn(plan, st.trace)
  }

  lemma SaveRecords(plan: seq<StageDetail>, st: RunState, k: nat, s: Status)
    requires Recorded(plan, st, k, s) && s in {NotRun, Running, Fail}
    ensures Recorded(plan, Save(st), k, s)
  {
    hide Marked;
    assert WellShaped(plan, st.stages);
  }

  /** `EndStage` may save a stage as succeeded: the same as "the next one is not run". */
  lemma NextStage(plan: seq<StageDetail>, stages: seq<StageDetail>, k: nat)
    requires Marked(plan, stages, k, Success) && k < |plan|
    ensures Marked(plan, stages, k + 1, NotRun)
  {
  }

  lemma ActRecords(plan: seq<StageDetail>, st: RunState, k: nat, s: Status, c: Call, hasHandler: bool, out: Outcome)
    requires Recorded(plan, st, k, s)
    ensures Recorded(plan, Act(st, c, hasHandler, out), k, s)
  {
    hide Marked, SavedShaped;
  }

  lemma {:induction false} DrainRecords(plan: seq<StageDetail>, st: RunState, k: nat, s: Status)
    requires Recorded(plan, st, k, s)
    ensures Recorded(plan, Drain(st), k, s)
    decreases |st.stack|
  {
    hide Marked, SavedShaped;
    if st.stack != [] {
      var n := |st.stack| - 1;
      DrainRecords(plan, Emit(st, Post(st.stack[n])).(stack := st.stack[..n]), k, s);
    }
  }

  lemma SetStepRecords(plan: seq<StageDetail>, st: RunState, k: nat, s: Status, j: nat, x: Status)
    requires Recorded(plan, st, k, s)
    ensures Recorded(plan, st.(stages := SetStep(st.stages, k, j, x)), k, s)
  {
    hide SavedShaped, StartsInTurn;
  }

  lemma {:induction false} StepsRecord(plan: seq<StageDetail>, steps: seq<Step>, st: RunState, i: nat, j: nat,
                                       o: Oracle)
    requires Recorded(plan, st, i, Running)
    ensures Recorded(plan, RunSteps(steps, st, i, j, o), i, Running)
    decreases |steps| - j
  {
    hide Recorded, HasAction, SetStep;
    if j < |steps| {
      var b := Emit(st, StepStart(i, j));
      StepEventRecords(plan, st, i, StepStart(i, j));
      ActRecords(plan, b, i, Running, Call(i, j, ContainerStart), true, o(Call(i, j, ContainerStart)));
      var c := StartContainer(b, steps[j], i, j, o);
      if !(steps[j].runsOn != "" && c.err) {
        FinishStepRecords(plan, c, steps[j], i, j, o);
        StepsRecord(plan, steps, FinishStep(c, steps[j], i, j, o), i, j + 1, o);
      }
    }
  }

  lemma StepEventRecords(plan: seq<StageDetail>, st: RunState, i: nat, e: Event)
    requires Recorded(plan, st, i, Running) && !e.StageStart?
    ensures Recorded(plan, Emit(st, e), i, Running)
  {
    hide Marked, SavedShaped;
  }

  lemma FinishStepRecords(plan: seq<StageDetail>, st: RunState, step: Step, i: nat, j: nat, o: Oracle)
    requires Recorded(plan, st, i, Running)
    ensures Recorded(plan, FinishStep(st, step, i, j, o), i, Running)
  {
    hide Recorded, HasAction, SetStep, Act, Drain;
    SetStepRecords(plan, st, i, Running, j, Running);
    var s1 := st.(stages := SetStep(st.stages, i, j, Running));
    SaveRecords(plan, s1, i, Running);
    StepEventRecords(plan, Save(s1), i, StepLogged(i, j));
    var s2 := Emit(Save(s1), StepLogged(i, j));
    ActRecords(plan, s2, i, Running, Call(i, j, StepAction), HasAction(step), o(Call(i, j, StepAction)));
    var b := Act(s2, Call(i, j, StepAction), HasAction(step), o(Call(i, j, StepAction)));
    DrainRecords(plan, b, i, Running);
    var x := if Drain(b).err then Fail else Success;
    SetStepRecords(plan, Drain(b), i, Running, j, x);
    SaveRecords(plan, Drain(b).(stages := SetStep(Drain(b).stages, i, j, x)), i, Running);
  }

  lemma BeginStageRecords(plan: seq<StageDetail>, st: RunState, i: nat)
    requires Recorded(plan, st, i, NotRun) && i < |plan|
    ensures Recorded(plan, BeginStage(st, i), i, Running)
  {
    hide SavedShaped;
    var a := Emit(st, StageStart(i, st.stages));
    assert Recorded(plan, a.(stages := SetStage(a.stages, i, Running)), i, Running);
    SaveRecords(plan, a.(stages := SetStage(a.stages, i, Running)), i, Running);
  }

  lemma EndStageRecords(plan: seq<StageDetail>, st: RunState, i: nat)
    requires Recorded(plan, st, i, Running) && i < |plan|
    ensures if st.err then Recorded(plan, EndStage(st, i), i, Fail) else Recorded(plan, EndStage(st, i), i + 1, NotRun)
  {
    hide SavedShaped, StartsInTurn;
    var x := if st.err then Fail else Success;
    var e := st.(stages := SetStage(st.stages, i, x));
    assert Marked(plan, e.stages, i, x);
    if st.err {
      SaveRecords(plan, e, i, Fail);
    } else {
      NextStage(plan, e.stages, i);
      SaveRecords(plan, e, i + 1, NotRun);
    }
  }

  /** The stage at which a run stops: the failed one, or the end of the plan. */
  lemma {:induction false} StagesRecord(plan: seq<StageDetail>, st: RunState, i: nat, o: Oracle) returns (k: nat)
    requires Recorded(plan, st, i, NotRun)
    ensures i <= k <= |plan|
    ensures RunStages(plan, st, i, o).err && i < |plan| ==>
            k < |plan| && Recorded(plan, RunStages(plan, st, i, o), k, Fail)
    ensures !RunStages(plan, st, i, o).err || i == |plan| ==>
            k == |plan| && Recorded(plan, RunStages(plan, st, i, o), k, NotRun)
    decreases |plan| - i
  {
    hide Recorded, RunSteps, BeginStage, EndStage;
    assert i <= |plan| by { RecordedInRange(plan, st, i, NotRun); }
    if i == |plan| {
      k := i;
    } else {
      var steps := plan[i].stage.steps;
      BeginStageRecords(plan, st, i);
      StepsRecord(plan, steps, BeginStage(st, i), i, 0, o);
      EndStageRecords(plan, RunSteps(steps, BeginStage(st, i), i, 0, o), i);
      EndStageKeepsErr(RunSteps(steps, BeginStage(st, i), i, 0, o), i);
      var s := RunStage(plan, st, i, o);
      if s.err {
        k := i;
      } else {
        k := StagesRecord(plan, s, i + 1, o);
        if i + 1 == |plan| { assert RunStages(plan, s, i + 1, o) == s; }
      }
    }
  }

  lemma RecordedInRange(plan: seq<StageDetail>, st: RunState, k: nat, s: Status)
    requires Recorded(plan, st, k, s)
    ensures k <= |plan|
  {
  }

  lemma EndStageKeepsErr(st: RunState, i: nat)
    ensures EndStage(st, i).err == st.err
  {
  }
}
