/** The cleanup stack over a whole run: which started actions get their `Post`, and in which order. */
module Cleanup {
  import opened Results
  import opened Model
  import opened RunSpec
  import opened RunProofs

  /** Replays a trace. A successful `Pre` opens its call; a `Post` must close the call opened last;
      a stage or a step may begin only when nothing is open. `None` when the trace breaks a rule. */
  function Open(t: seq<Event>): Option<seq<Call>> {
    if t == [] then Some([])
    else
      var r := Open(t[..|t| - 1]);
      if r.None? then None else Replay(r.value, t[|t| - 1])
  }

  function Replay(open: seq<Call>, e: Event): Option<seq<Call>> {
    match e
    case StageStart(_, _) => if open == [] then Some(open) else None
    case StepStart(_, _) => if open == [] then Some(open) else None
    case StepLogged(_, _) => Some(open)
    case Saved(_) => Some(open)
    case Pre(c, ok) => Some(if ok then open + [c] else open)
    case Hook(_, _) => Some(open)
    case Post(c) => if open != [] && open[|open| - 1] == c then Some(open[..|open| - 1]) else None
  }

  lemma OpenSnoc(t: seq<Event>, e: Event)
    ensures Open(t + [e]) == if Open(t).None? then None else Replay(Open(t).value, e)
  {
    assert (t + [e])[..|t|] == t;
  }

  ghost predicate StackIsOpen(st: RunState) {
    Open(st.trace) == Some(st.stack)
  }

  lemma SaveKeepsStack(st: RunState)
    ensures StackIsOpen(Save(st)) <==> StackIsOpen(st)
  {
    OpenSnoc(st.trace, Saved(Snapshot(st.status, st.stages)));
  }

  lemma ActKeepsStack(st: RunState, c: Call, hasHandler: bool, out: Outcome)
    requires StackIsOpen(st)
    ensures StackIsOpen(Act(st, c, hasHandler, out))
  {
    hide Open;
    if out == PreError {
      OpenSnoc(st.trace, Pre(c, false));
    } else {
      OpenSnoc(st.trace, Pre(c, true));
      OpenSnoc(st.trace + [Pre(c, true)], Hook(c, out == Done));
    }
  }

  lemma {:induction false} DrainClosesStack(st: RunState)
    requires StackIsOpen(st)
    ensures StackIsOpen(Drain(st)) && Drain(st).stack == []
    decreases |st.stack|
  {
    hide Open;
    if st.stack != [] {
      var n := |st.stack| - 1;
      OpenSnoc(st.trace, Post(st.stack[n]));
      DrainClosesStack(Emit(st, Post(st.stack[n])).(stack := st.stack[..n]));
    }
  }

  /** The only call that can be left open: a container start that failed in its `Hook`. */
  function LeftOpen(f: Option<Call>, o: Oracle): seq<Call> {
    if f.Some? && f.value.kind.ContainerStart? && o(f.value) == HookError then [f.value] else []
  }

  lemma {:induction false} StepsKeepStack(steps: seq<Step>, st: RunState, i: nat, j: nat, o: Oracle)
    requires StackIsOpen(st) && st.stack == []
    ensures var r := RunSteps(steps, st, i, j, o);
            && StackIsOpen(r)
            && r.stack == if st.status == Running then LeftOpen(FirstFailure(StepCalls(steps, i, j), o), o) else []
    decreases |steps| - j
  {
    hide Open, HasAction, FirstFailure, StepCalls, StartContainer, FinishStep, Act;
    if j >= |steps| {
      NoMoreCalls(steps, i, j, o);
    } else {
      var c := StartContainer(Emit(st, StepStart(i, j)), steps[j], i, j, o);
      StartContainerKeepsStack(st, steps[j], i, j, o);
      FirstFailureFromStep(steps, i, j, o);
      StepIteration(st, steps[j], i, j, o);
      if !(steps[j].runsOn != "" && c.err) {
        FinishStepKeepsStack(c, steps[j], i, j, o);
        StepsKeepStack(steps, FinishStep(c, steps[j], i, j, o), i, j + 1, o);
      }
    }
  }

  lemma StartContainerKeepsStack(st: RunState, step: Step, i: nat, j: nat, o: Oracle)
    requires StackIsOpen(st) && st.stack == []
    ensures var c := StartContainer(Emit(st, StepStart(i, j)), step, i, j, o); var call := Call(i, j, ContainerStart);
            && StackIsOpen(c)
            && (step.runsOn != "" && st.status == Running && o(call) != Done ==> c.stack == LeftOpen(Some(call), o))
  {
    hide Open;
    OpenSnoc(st.trace, StepStart(i, j));
    ActKeepsStack(Emit(st, StepStart(i, j)), Call(i, j, ContainerStart), true, o(Call(i, j, ContainerStart)));
  }

  lemma FinishStepKeepsStack(st: RunState, step: Step, i: nat, j: nat, o: Oracle)
    requires StackIsOpen(st)
    ensures StackIsOpen(FinishStep(st, step, i, j, o)) && FinishStep(st, step, i, j, o).stack == []
  {
    hide Open, HasAction;
    var s := st.(stages := SetStep(st.stages, i, j, Running));
    var a := Emit(Save(s), StepLogged(i, j));
    SaveKeepsStack(s);
    OpenSnoc(Save(s).trace, StepLogged(i, j));
    ActKeepsStack(a, Call(i, j, StepAction), HasAction(step), o(Call(i, j, StepAction)));
    var b := Act(a, Call(i, j, StepAction), HasAction(step), o(Call(i, j, StepAction)));
    DrainClosesStack(b);
    SaveKeepsStack(Drain(b).(stages := SetStep(Drain(b).stages, i, j, if Drain(b).err then Fail else Success)));
  }

  lemma BeginStageKeepsStack(st: RunState, i: nat)
    requires StackIsOpen(st) && st.stack == []
    ensures StackIsOpen(BeginStage(st, i)) && BeginStage(st, i).stack == []
  {
    hide Open, SetStage;
    var a := Emit(st, StageStart(i, st.stages));
    OpenSnoc(st.trace, StageStart(i, st.stages));
    SaveKeepsStack(a.(stages := SetStage(a.stages, i, Running)));
  }

  lemma EndStageKeepsStack(st: RunState, i: nat)
    requires StackIsOpen(st)
    ensures StackIsOpen(EndStage(st, i)) && EndStage(st, i).stack == st.stack
  {
    hide Open, SetStage;
    SaveKeepsStack(st.(stages := SetStage(st.stages, i, if st.err then Fail else Success)));
  }

  lemma {:induction false} StagesKeepStack(plan: seq<StageDetail>, st: RunState, i: nat, o: Oracle)
    requires StackIsOpen(st) && st.stack == []
    requires st.err && i < |plan| ==> st.status == Running && plan[i].stage.steps != []
    ensures var r := RunStages(plan, st, i, o);
            && StackIsOpen(r)
            && r.stack == if st.status == Running then LeftOpen(FirstFailure(Calls(plan, i), o), o) else []
    decreases |plan| - i
  {
    hide Open, Followed, Attempts, UpTo, FirstFailure, StepCalls, RunSteps, SetStage;
    if i >= |plan| {
      NoCall(o);
    } else {
      var steps := plan[i].stage.steps;
      var s := RunStage(plan, st, i, o);
      BeginStageKeepsStack(st, i);
      StepsKeepStack(steps, BeginStage(st, i), i, 0, o);
      EndStageKeepsStack(RunSteps(steps, BeginStage(st, i), i, 0, o), i);
      StageFollows(plan, st, i, o);
      StatusFollows(st, s, StepCalls(steps, i, 0), o);
      FirstFailureAppend(StepCalls(steps, i, 0), Calls(plan, i + 1), o);
      if steps == [] { EmptyStage(i, o); }
      if !s.err {
        StagesKeepStack(plan, s, i + 1, o);
      }
    }
  }

  function OpenedBy(e: Event): multiset<Call> {
    if e.Pre? && e.ok then multiset{e.call} else multiset{}
  }

  function PostedBy(e: Event): multiset<Call> {
    if e.Post? then multiset{e.call} else multiset{}
  }

  function Opened(t: seq<Event>): multiset<Call> {
    if t == [] then multiset{} else Opened(t[..|t| - 1]) + OpenedBy(t[|t| - 1])
  }

  function Posted(t: seq<Event>): multiset<Call> {
    if t == [] then multiset{} else Posted(t[..|t| - 1]) + PostedBy(t[|t| - 1])
  }

  /** A trace that obeys the rules posts every call it opened exactly once, but for those still open. */
  lemma {:induction false} OpenedIsPostedPlusOpen(t: seq<Event>)
    requires Open(t).Some?
    ensures Opened(t) == Posted(t) + multiset(Open(t).value)
  {
    if t != [] {
      hide Replay, OpenedBy, PostedBy;
      var u, e := t[..|t| - 1], t[|t| - 1];
      OpenedIsPostedPlusOpen(u);
      ReplayBalances(Open(u).value, e);
      Regroup(Posted(u), multiset(Open(u).value), OpenedBy(e), PostedBy(e), multiset(Open(t).value));
    }
  }

  lemma Regroup<T>(p: multiset<T>, m: multiset<T>, x: multiset<T>, q: multiset<T>, n: multiset<T>)
    requires m + x == q + n
    ensures p + m + x == p + q + n
  {
    assert p + m + x == p + (m + x);
  }

  lemma ReplayBalances(open: seq<Call>, e: Event)
    requires Replay(open, e).Some?
    ensures multiset(open) + OpenedBy(e) == PostedBy(e) + multiset(Replay(open, e).value)
  {
    if e.Post? {
      assert open == open[..|open| - 1] + [open[|open| - 1]];
    }
  }
}
