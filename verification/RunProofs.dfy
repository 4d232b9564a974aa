/** What every run of a job keeps, for every plan and every outcome of its actions. */
module RunProofs {
  import opened Results
  import opened Model
  import opened RunSpec

  // ---- the calls of a plan, in order, and the first that fails ----

  function ContainerCalls(step: Step, i: nat, j: nat): seq<Call> {
    if step.runsOn != "" then [Call(i, j, ContainerStart)] else []
  }

  function ActionCalls(step: Step, i: nat, j: nat): seq<Call> {
    if HasAction(step) then [Call(i, j, StepAction)] else []
  }

  function StepCalls(steps: seq<Step>, i: nat, j: nat): seq<Call>
    decreases |steps| - j
  {
    if j >= |steps| then []
    else ContainerCalls(steps[j], i, j) + (ActionCalls(steps[j], i, j) + StepCalls(steps, i, j + 1))
  }

  /** Every start of a container or an action that stages `i` on would make if none failed. */
  function Calls(plan: seq<StageDetail>, i: nat): seq<Call>
    decreases |plan| - i
  {
    if i >= |plan| then [] else StepCalls(plan[i].stage.steps, i, 0) + Calls(plan, i + 1)
  }

  function FirstFailure(cs: seq<Call>, o: Oracle): Option<Call> {
    if cs == [] then None
    else if o(cs[0]) != Done then Some(cs[0])
    else FirstFailure(cs[1..], o)
  }

  /** The calls up to and including the first that fails. */
  function UpTo(cs: seq<Call>, o: Oracle): seq<Call> {
    if cs == [] then []
    else if o(cs[0]) != Done then [cs[0]]
    else [cs[0]] + UpTo(cs[1..], o)
  }

  function Attempt(c: Call, out: Outcome): seq<Event> {
    match out
    case PreError => [Pre(c, false)]
    case HookError => [Pre(c, true), Hook(c, false)]
    case Done => [Pre(c, true), Hook(c, true)]
  }

  function Attempts(cs: seq<Call>, o: Oracle): seq<Event> {
    if cs == [] then [] else Attempt(cs[0], o(cs[0])) + Attempts(cs[1..], o)
  }

  lemma {:induction false} FirstFailureAppend(a: seq<Call>, b: seq<Call>, o: Oracle)
    ensures FirstFailure(a + b, o) == if FirstFailure(a, o).Some? then FirstFailure(a, o) else FirstFailure(b, o)
  {
    if a == [] {
      assert a + b == b;
    } else {
      assert (a + b)[1..] == a[1..] + b;
      FirstFailureAppend(a[1..], b, o);
    }
  }

  lemma {:induction false} UpToAppend(a: seq<Call>, b: seq<Call>, o: Oracle)
    ensures UpTo(a + b, o) == if FirstFailure(a, o).Some? then UpTo(a, o) else a + UpTo(b, o)
    ensures FirstFailure(a, o).None? ==> UpTo(a, o) == a
  {
    if a == [] {
      assert a + b == b;
    } else {
      assert (a + b)[1..] == a[1..] + b && (a + b)[0] == a[0];
      UpToAppend(a[1..], b, o);
      assert a == [a[0]] + a[1..];
      if o(a[0]) == Done && FirstFailure(a[1..], o).None? {
        assert a + UpTo(b, o) == [a[0]] + (a[1..] + UpTo(b, o));
      }
    }
  }

  lemma {:induction false} AttemptsAppend(a: seq<Call>, b: seq<Call>, o: Oracle)
    ensures Attempts(a + b, o) == Attempts(a, o) + Attempts(b, o)
  {
    if a == [] {
      assert a + b == b;
    } else {
      assert (a + b)[1..] == a[1..] + b;
      AttemptsAppend(a[1..], b, o);
    }
  }

  // ---- which actions run ----

  predicate IsAction(e: Event) {
    e.Pre? || e.Hook?
  }

  function Actions(t: seq<Event>): seq<Event> {
    if t == [] then []
    else Actions(t[..|t| - 1]) + (if IsAction(t[|t| - 1]) then [t[|t| - 1]] else [])
  }

  lemma ActionsSnoc(t: seq<Event>, e: Event)
    ensures Actions(t + [e]) == Actions(t) + if IsAction(e) then [e] else []
  {
    assert (t + [e])[..|t|] == t;
  }

  lemma SaveActions(st: RunState)
    ensures Actions(Save(st).trace) == Actions(st.trace)
  {
    ActionsSnoc(st.trace, Saved(Snapshot(st.status, st.stages)));
  }

  /** `r` is `st` after attempting `cs` in order, stopping after the first failure; a job that is
      not running attempts nothing. */
  ghost predicate Followed(st: RunState, r: RunState, cs: seq<Call>, o: Oracle) {
    && Actions(r.trace) == Actions(st.trace) + (if st.status == Running then Attempts(UpTo(cs, o), o) else [])
    && r.status == (if st.status == Running && FirstFailure(cs, o).Some? then Fail else st.status)
  }

  lemma FollowedSelf(a: RunState, o: Oracle)
    ensures Followed(a, a, [], o)
  {
  }

  lemma FollowedTrans(a: RunState, b: RunState, c: RunState, cs: seq<Call>, ds: seq<Call>, o: Oracle)
    requires Followed(a, b, cs, o) && Followed(b, c, ds, o)
    ensures Followed(a, c, cs + ds, o)
  {
    hide Actions, Attempts, UpTo, FirstFailure;
    FirstFailureAppend(cs, ds, o);
    UpToAppend(cs, ds, o);
    if a.status == Running && FirstFailure(cs, o).None? {
      AttemptsAppend(cs, UpTo(ds, o), o);
    }
  }

  /** Once a job is no longer running, the calls that follow are not attempted. */
  lemma FollowedByNone(a: RunState, b: RunState, cs: seq<Call>, ds: seq<Call>, o: Oracle)
    requires Followed(a, b, cs, o) && b.status != Running
    ensures Followed(a, b, cs + ds, o)
  {
    FirstFailureAppend(cs, ds, o);
    UpToAppend(cs, ds, o);
  }

  lemma OneCall(c: Call, o: Oracle)
    ensures UpTo([c], o) == [c]
    ensures FirstFailure([c], o) == if o(c) == Done then None else Some(c)
    ensures Attempts([c], o) == Attempt(c, o(c))
  {
    assert [c][1..] == [];
  }

  lemma NoCall(o: Oracle)
    ensures Attempts(UpTo([], o), o) == [] && FirstFailure([], o) == None
  {
  }

  lemma ActFollows(st: RunState, c: Call, hasHandler: bool, o: Oracle)
    ensures Followed(st, Act(st, c, hasHandler, o(c)), if hasHandler then [c] else [], o)
  {
    hide Actions, Attempts, UpTo, FirstFailure;
    OneCall(c, o);
    NoCall(o);
    if st.status == Running && hasHandler {
      if o(c) == PreError {
        ActionsSnoc(st.trace, Pre(c, false));
      } else {
        ActionsSnoc(st.trace, Pre(c, true));
        ActionsSnoc(st.trace + [Pre(c, true)], Hook(c, o(c) == Done));
      }
    }
  }

  lemma {:induction false} DrainFollows(st: RunState, o: Oracle)
    ensures Followed(st, Drain(st), [], o)
    ensures Drain(st) == st.(stack := [], trace := Drain(st).trace)
    decreases |st.stack|
  {
    if st.stack != [] {
      var n := |st.stack| - 1;
      ActionsSnoc(st.trace, Post(st.stack[n]));
      DrainFollows(Emit(st, Post(st.stack[n])).(stack := st.stack[..n]), o);
    }
  }

  lemma StartContainerFollows(st: RunState, step: Step, i: nat, j: nat, o: Oracle)
    ensures Followed(st, StartContainer(Emit(st, StepStart(i, j)), step, i, j, o),
                     ContainerCalls(step, i, j), o)
  {
    hide Actions, Attempts, UpTo, FirstFailure, Act;
    NoCall(o);
    ActionsSnoc(st.trace, StepStart(i, j));
    ActFollows(Emit(st, StepStart(i, j)), Call(i, j, ContainerStart), true, o);
  }

  lemma LogStepFollows(st: RunState, i: nat, j: nat, o: Oracle)
    ensures Followed(st, Emit(Save(st.(stages := SetStep(st.stages, i, j, Running))), StepLogged(i, j)), [], o)
  {
    hide Actions, Attempts, UpTo, FirstFailure, SetStep;
    var s := st.(stages := SetStep(st.stages, i, j, Running));
    NoCall(o);
    SaveActions(s);
    ActionsSnoc(Save(s).trace, StepLogged(i, j));
  }

  lemma FinishStepFollows(st: RunState, step: Step, i: nat, j: nat, o: Oracle)
    ensures Followed(st, FinishStep(st, step, i, j, o), ActionCalls(step, i, j), o)
    ensures FinishStep(st, step, i, j, o).stack == []
    ensures FinishStep(st, step, i, j, o).err
            == (st.status == Running && HasAction(step) && o(Call(i, j, StepAction)) != Done)
  {
    hide HasAction, Actions, Attempts, UpTo, FirstFailure, SetStep;
    var a := Emit(Save(st.(stages := SetStep(st.stages, i, j, Running))), StepLogged(i, j));
    var b := Act(a, Call(i, j, StepAction), HasAction(step), o(Call(i, j, StepAction)));
    var cs := ActionCalls(step, i, j);
    LogStepFollows(st, i, j, o);
    ActFollows(a, Call(i, j, StepAction), HasAction(step), o);
    DrainFollows(b, o);
    assert cs + [] == cs && [] + cs == cs;
    FollowedTrans(a, b, Drain(b), cs, [], o);
    FollowedTrans(st, a, Drain(b), [], cs, o);
    SaveActions(Drain(b).(stages := SetStep(Drain(b).stages, i, j, if b.err then Fail else Success)));
  }

  lemma {:induction false} StepsFollow(steps: seq<Step>, st: RunState, i: nat, j: nat, o: Oracle)
    ensures Followed(st, RunSteps(steps, st, i, j, o), StepCalls(steps, i, j), o)
    decreases |steps| - j
  {
    hide ContainerCalls, ActionCalls, Followed, StartContainer, FinishStep;
    if j >= |steps| {
      FollowedSelf(st, o);
    } else {
      var first, second := ContainerCalls(steps[j], i, j), ActionCalls(steps[j], i, j);
      var c := StartContainer(Emit(st, StepStart(i, j)), steps[j], i, j, o);
      var r := RunSteps(steps, st, i, j, o);
      StartContainerFollows(st, steps[j], i, j, o);
      if steps[j].runsOn != "" && c.err {
        ContainerErr(st, steps[j], i, j, o);
        FollowedByNone(st, c, first, second + StepCalls(steps, i, j + 1), o);
      } else {
        var d := FinishStep(c, steps[j], i, j, o);
        FinishStepFollows(c, steps[j], i, j, o);
        StepsFollow(steps, d, i, j + 1, o);
        FollowedTrans(c, d, r, second, StepCalls(steps, i, j + 1), o);
        FollowedTrans(st, c, r, first, second + StepCalls(steps, i, j + 1), o);
      }
    }
  }

  lemma ContainerErr(st: RunState, step: Step, i: nat, j: nat, o: Oracle)
    ensures var c := StartContainer(Emit(st, StepStart(i, j)), step, i, j, o);
            step.runsOn != "" && c.err ==> c.status != Running
  {
  }

  // ---- when the run ends with an error ----

  /** A failure is fatal at a container start and at the last step of a stage; after any other the
      next step's gated call overwrites `err`. */
  predicate Fatal(steps: seq<Step>, c: Call) {
    c.kind.ContainerStart? || c.step == |steps| - 1
  }

  predicate FatalFailure(steps: seq<Step>, f: Option<Call>) {
    f.Some? && Fatal(steps, f.value)
  }

  /** The first failure from step `j` on: at its container, at its action, or at a later step. */
  lemma FirstFailureFromStep(steps: seq<Step>, i: nat, j: nat, o: Oracle)
    requires j < |steps|
    ensures FirstFailure(StepCalls(steps, i, j), o)
            == if steps[j].runsOn != "" && o(Call(i, j, ContainerStart)) != Done then Some(Call(i, j, ContainerStart))
               else if HasAction(steps[j]) && o(Call(i, j, StepAction)) != Done then Some(Call(i, j, StepAction))
               else FirstFailure(StepCalls(steps, i, j + 1), o)
  {
    hide HasAction, FirstFailure;
    var first, second, rest := ContainerCalls(steps[j], i, j), ActionCalls(steps[j], i, j), StepCalls(steps, i, j + 1);
    FirstFailureAppend(first, second + rest, o);
    FirstFailureAppend(second, rest, o);
    OneCall(Call(i, j, ContainerStart), o);
    OneCall(Call(i, j, StepAction), o);
    NoCall(o);
  }

  /** One iteration of the step loop: `c` after the container, `d` after the step. */
  lemma StepIteration(st: RunState, step: Step, i: nat, j: nat, o: Oracle)
    ensures var c := StartContainer(Emit(st, StepStart(i, j)), step, i, j, o);
            var d := FinishStep(c, step, i, j, o);
            var failed := step.runsOn != "" && o(Call(i, j, ContainerStart)) != Done;
            && (step.runsOn != "" ==> c.err == (st.status == Running && failed))
            && c.status == (if st.status == Running && failed then Fail else st.status)
            && d.err == (c.status == Running && HasAction(step) && o(Call(i, j, StepAction)) != Done)
            && d.status == (if d.err then Fail else c.status)
            && d.stack == []
  {
    hide Recognized, HasAction, Actions, Attempts, UpTo, FirstFailure, FinishStep;
    var c := StartContainer(Emit(st, StepStart(i, j)), step, i, j, o);
    FinishStepFollows(c, step, i, j, o);
    OneCall(Call(i, j, StepAction), o);
    NoCall(o);
  }

  lemma {:induction false} StepsErr(steps: seq<Step>, st: RunState, i: nat, j: nat, o: Oracle)
    ensures RunSteps(steps, st, i, j, o).err
            == if j >= |steps| then st.err
               else st.status == Running && FatalFailure(steps, FirstFailure(StepCalls(steps, i, j), o))
    decreases |steps| - j
  {
    hide HasAction, FirstFailure, StepCalls, StartContainer, FinishStep;
    if j < |steps| {
      var c := StartContainer(Emit(st, StepStart(i, j)), steps[j], i, j, o);
      FirstFailureFromStep(steps, i, j, o);
      StepIteration(st, steps[j], i, j, o);
      if !(steps[j].runsOn != "" && c.err) {
        StepsErr(steps, FinishStep(c, steps[j], i, j, o), i, j + 1, o);
        if j + 1 >= |steps| { NoMoreCalls(steps, i, j + 1, o); }
      }
    }
  }

  lemma NoMoreCalls(steps: seq<Step>, i: nat, j: nat, o: Oracle)
    requires j >= |steps|
    ensures FirstFailure(StepCalls(steps, i, j), o) == None
  {
  }

  lemma StatusFollows(a: RunState, b: RunState, cs: seq<Call>, o: Oracle)
    requires Followed(a, b, cs, o)
    ensures b.status == if a.status == Running && FirstFailure(cs, o).Some? then Fail else a.status
  {
  }

  lemma StageFollows(plan: seq<StageDetail>, st: RunState, i: nat, o: Oracle)
    requires i < |plan|
    ensures var steps := plan[i].stage.steps; var r := RunStage(plan, st, i, o);
            && Followed(st, r, StepCalls(steps, i, 0), o)
            && r.err == if steps == [] then st.err
                        else st.status == Running && FatalFailure(steps, FirstFailure(StepCalls(steps, i, 0), o))
  {
    hide Attempts, UpTo, FirstFailure, StepCalls, RunSteps, SetStage;
    var b := BeginStage(st, i);
    var r := RunSteps(plan[i].stage.steps, b, i, 0, o);
    ActionsSnoc(st.trace, StageStart(i, st.stages));
    var a := Emit(st, StageStart(i, st.stages));
    SaveActions(a.(stages := SetStage(a.stages, i, Running)));
    SaveActions(r.(stages := SetStage(r.stages, i, if r.err then Fail else Success)));
    StepsFollow(plan[i].stage.steps, b, i, 0, o);
    StepsErr(plan[i].stage.steps, b, i, 0, o);
  }

  /** The working directory could not be created and no step overwrites that error. */
  predicate Stillborn(plan: seq<StageDetail>, mkdirFailed: bool) {
    mkdirFailed && (plan == [] || plan[0].stage.steps == [])
  }

  /** The failure of a whole plan is fatal if it is fatal in its stage. */
  predicate FatalInPlan(plan: seq<StageDetail>, f: Option<Call>) {
    f.Some? && f.value.stage < |plan| && Fatal(plan[f.value.stage].stage.steps, f.value)
  }

  lemma {:induction false} CallsAreInRange(steps: seq<Step>, i: nat, j: nat, o: Oracle)
    ensures var f := FirstFailure(StepCalls(steps, i, j), o); f.Some? ==>
            f.value.stage == i && j <= f.value.step < |steps|
    decreases |steps| - j
  {
    hide HasAction, StepCalls, FirstFailure;
    if j < |steps| {
      FirstFailureFromStep(steps, i, j, o);
      CallsAreInRange(steps, i, j + 1, o);
    } else {
      NoMoreCalls(steps, i, j, o);
    }
  }

  lemma {:induction false} StagesFollow(plan: seq<StageDetail>, st: RunState, i: nat, o: Oracle)
    requires st.err && i < |plan| ==> st.status == Running && plan[i].stage.steps != []
    ensures var r := RunStages(plan, st, i, o);
            && Followed(st, r, Calls(plan, i), o)
            && r.err == if i >= |plan| then st.err
                        else st.status == Running && FatalInPlan(plan, FirstFailure(Calls(plan, i), o))
    decreases |plan| - i
  {
    hide Followed, Attempts, UpTo, FirstFailure, StepCalls, RunSteps, RunStage;
    if i >= |plan| {
      FollowedSelf(st, o);
    } else {
      var steps := plan[i].stage.steps;
      var head, tail := StepCalls(steps, i, 0), Calls(plan, i + 1);
      var s := RunStage(plan, st, i, o);
      StageFollows(plan, st, i, o);
      StatusFollows(st, s, head, o);
      FirstFailureAppend(head, tail, o);
      CallsAreInRange(steps, i, 0, o);
      if steps == [] { EmptyStage(i, o); }
      if s.err {
        FollowedByNone(st, s, head, tail, o);
      } else {
        StagesFollow(plan, s, i + 1, o);
        FollowedTrans(st, s, RunStages(plan, s, i + 1, o), head, tail, o);
        if i + 1 >= |plan| { NoCall(o); }
      }
    }
  }

  lemma EmptyStage(i: nat, o: Oracle)
    ensures FirstFailure(StepCalls([], i, 0), o) == None
  {
  }
}
