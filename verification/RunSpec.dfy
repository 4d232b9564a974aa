/** What one run of a job does, as a function: the stage and step loops of `Executor.Execute`,
    the `executeAction` closure and the cleanup stack. Every action is an oracle outcome. */
module RunSpec {
  import opened Results
  import opened Model

  /** Which of its two `executeAction` sites a step is at. */
  datatype Kind = ContainerStart | StepAction

  datatype Call = Call(stage: nat, step: nat, kind: Kind)

  datatype Outcome = PreError | HookError | Done

  type Oracle = Call -> Outcome

  datatype Event =
    | StageStart(stage: nat, stages: seq<StageDetail>)
    | StepStart(stage: nat, step: nat)
    | StepLogged(stage: nat, step: nat)
    | Pre(call: Call, ok: bool)
    | Hook(call: Call, ok: bool)
    | Post(call: Call)
    | Saved(detail: Snapshot)

  /** What `SaveJobDetail` writes. */
  datatype Snapshot = Snapshot(status: Status, stages: seq<StageDetail>)

  datatype RunState = RunState(
    status: Status,
    stages: seq<StageDetail>,
    err: bool,
    stack: seq<Call>,
    trace: seq<Event>,
    saved: seq<Snapshot>)

  /** The `uses` values with an action of their own; any other one needs a '/' to be a remote action. */
  predicate Recognized(uses: string) {
    || uses in {"", "shell", "git-checkout", "hamster-ipfs", "hamster-pinata-ipfs", "hamster-artifactory",
                "image-build", "image-push", "k8s-frontend-deploy", "k8s-assign-domain", "metascan_action",
                "sol-profiler-check", "solhint-check", "mythril-check", "slither-check", "check-aggregation",
                "deploy-ink-contract", "frontend-check", "eth-gas-reporter", "aptos-check", "workdir", "openai",
                "icp-build", "icp-deploy"}
    || '/' in uses
  }

  /** What `ah` holds when the step's action is executed. */
  datatype Handler = Container | Action(uses: string)

  /** A step whose `uses` is not recognized keeps the container handler it already has, if any. */
  function HandlerOf(step: Step): Option<Handler> {
    if Recognized(step.uses) then Some(Action(step.uses))
    else if step.runsOn != "" then Some(Container)
    else None
  }

  predicate HasAction(step: Step) {
    HandlerOf(step).Some?
  }

  /** The stage that the `Hook` of a "hamster-artifactory" step begins in the log before it does anything else. */
  const ARTIFACTORY_STAGE := "artifactory"

  predicate WritesStage(step: Step) {
    step.uses == "hamster-artifactory"
  }

  function SetStage(stages: seq<StageDetail>, i: nat, s: Status): (r: seq<StageDetail>)
    ensures |r| == |stages|
    ensures forall k :: 0 <= k < |r| ==> r[k].name == stages[k].name && r[k].stage == stages[k].stage
    ensures forall k :: 0 <= k < |r| ==> r[k].status == if k == i then s else stages[k].status
  {
    if i < |stages| then stages[i := stages[i].(status := s)] else stages
  }

  function SetStep(stages: seq<StageDetail>, i: nat, j: nat, s: Status): (r: seq<StageDetail>)
    ensures |r| == |stages|
    ensures forall k :: 0 <= k < |r| ==> r[k].name == stages[k].name && r[k].status == stages[k].status
    ensures forall k :: 0 <= k < |r| ==> r[k].stage.needs == stages[k].stage.needs
    ensures forall k :: 0 <= k < |r| ==> |r[k].stage.steps| == |stages[k].stage.steps|
  {
    if i < |stages| && j < |stages[i].stage.steps| then
      var steps := stages[i].stage.steps;
      stages[i := stages[i].(stage := stages[i].stage.(steps := steps[j := steps[j].(status := s)]))]
    else
      stages
  }

  function Save(st: RunState): RunState {
    var detail := Snapshot(st.status, st.stages);
    Emit(st.(saved := st.saved + [detail]), Saved(detail))
  }

  function Emit(st: RunState, e: Event): RunState {
    st.(trace := st.trace + [e])
  }

  /** `executeAction`; the returned error becomes `err`. */
  function Act(st: RunState, c: Call, hasHandler: bool, out: Outcome): RunState {
    if st.status != Running || !hasHandler then
      st.(err := false)
    else match out
      case PreError => Emit(st, Pre(c, false)).(status := Fail, err := true)
      case HookError =>
        Emit(Emit(st, Pre(c, true)), Hook(c, false)).(status := Fail, err := true, stack := st.stack + [c])
      case Done => Emit(Emit(st, Pre(c, true)), Hook(c, true)).(err := false, stack := st.stack + [c])
  }

  /** Pop and `Post` until the stack is empty. */
  function Drain(st: RunState): RunState
    decreases |st.stack|
  {
    if st.stack == [] then st
    else
      var n := |st.stack| - 1;
      Drain(Emit(st, Post(st.stack[n])).(stack := st.stack[..n]))
  }

  function StartContainer(st: RunState, step: Step, i: nat, j: nat, o: Oracle): RunState {
    if step.runsOn == "" then st
    else Act(st, Call(i, j, ContainerStart), true, o(Call(i, j, ContainerStart)))
  }

  function FinishStep(st: RunState, step: Step, i: nat, j: nat, o: Oracle): RunState {
    var a := Emit(Save(st.(stages := SetStep(st.stages, i, j, Running))), StepLogged(i, j));
    var b := Drain(Act(a, Call(i, j, StepAction), HasAction(step), o(Call(i, j, StepAction))));
    Save(b.(stages := SetStep(b.stages, i, j, if b.err then Fail else Success)))
  }

  /** The step loop of stage `i` from step `j` on; a container that fails to start breaks out of it. */
  function RunSteps(steps: seq<Step>, st: RunState, i: nat, j: nat, o: Oracle): RunState
    decreases |steps| - j
  {
    if j >= |steps| then st
    else
      var c := StartContainer(Emit(st, StepStart(i, j)), steps[j], i, j, o);
      if steps[j].runsOn != "" && c.err then c
      else RunSteps(steps, FinishStep(c, steps[j], i, j, o), i, j + 1, o)
  }

  function BeginStage(st: RunState, i: nat): RunState {
    var a := Emit(st, StageStart(i, st.stages));
    Save(a.(stages := SetStage(a.stages, i, Running)))
  }

  function EndStage(st: RunState, i: nat): RunState {
    Save(st.(stages := SetStage(st.stages, i, if st.err then Fail else Success)))
  }

  function RunStage(plan: seq<StageDetail>, st: RunState, i: nat, o: Oracle): RunState
    requires i < |plan|
  {
    EndStage(RunSteps(plan[i].stage.steps, BeginStage(st, i), i, 0, o), i)
  }

  /** The stage loop from stage `i` on; a stage that ends with an error is the last. */
  function RunStages(plan: seq<StageDetail>, st: RunState, i: nat, o: Oracle): RunState
    decreases |plan| - i
  {
    if i >= |plan| then st
    else
      var s := RunStage(plan, st, i, o);
      if s.err then s else RunStages(plan, s, i + 1, o)
  }

  /** `err` still holds the result of creating the working directory when the loops begin. */
  function Initial(plan: seq<StageDetail>, mkdirFailed: bool): RunState {
    RunState(Running, plan, mkdirFailed, [], [], [])
  }

  function Conclude(st: RunState): RunState {
    Save(st.(status := if st.err then Fail else Success))
  }

  function Run(plan: seq<StageDetail>, mkdirFailed: bool, o: Oracle): RunState {
    Conclude(RunStages(plan, Initial(plan, mkdirFailed), 0, o))
  }
}
