/** When a run saves its job detail: what is on file while an action runs, and after it. */
module RunSaves {
  import opened Model
  import opened RunSpec
  import opened RunProofs
  import opened RunTheorems

  /** What was saved, in order, by the trace. */
  function Details(t: seq<Event>): seq<Snapshot> {
    if t == [] then []
    else Details(t[..|t| - 1]) + if t[|t| - 1].Saved? then [t[|t| - 1].detail] else []
  }

  /** How many stages and steps were begun. */
  function Begun(t: seq<Event>): nat {
    if t == [] then 0
    else Begun(t[..|t| - 1]) + if t[|t| - 1].StageStart? || t[|t| - 1].StepLogged? then 1 else 0
  }

  predicate StageIs(d: Snapshot, i: nat, s: Status) {
    i < |d.stages| && d.stages[i].status == s
  }

  predicate StepIs(d: Snapshot, i: nat, j: nat, s: Status) {
    i < |d.stages| && j < |d.stages[i].stage.steps| && d.stages[i].stage.steps[j].status == s
  }

  predicate SomeFailed(t: seq<Event>, p: nat, q: nat)
    requires q <= |t|
  {
    exists r :: p < r < q && Failed(t[r])
  }

  /** The next detail saved after `p` shows how step `j` ended: FAIL if its action failed, else SUCCESS. */
  ghost predicate ResultSaved(t: seq<Event>, p: nat, i: nat, j: nat) {
    exists q :: p < q < |t| && t[q].Saved? && NothingSaved(t, p, q)
                && StepIs(t[q].detail, i, j, if SomeFailed(t, p, q) then Fail else Success)
  }

  ghost predicate NothingSaved(t: seq<Event>, p: nat, q: nat)
    requires q <= |t|
  {
    forall r :: p < r < q ==> !t[r].Saved?
  }

  /** Before the next stage starts, a detail is saved that shows how stage `i` ended. */
  ghost predicate EndSaved(t: seq<Event>, p: nat, i: nat) {
    exists q :: p < q < |t| && t[q].Saved? && NoStart(t, p, q)
                && (StageIs(t[q].detail, i, Success) || StageIs(t[q].detail, i, Fail))
  }

  ghost predicate NoStart(t: seq<Event>, p: nat, q: nat)
    requires q <= |t|
  {
    forall r :: p < r < q ==> !t[r].StageStart?
  }

  /** An action runs with its step saved as RUNNING in a RUNNING stage, and its result is saved next; a stage is saved
      as RUNNING when it starts, and how it ended before the next one does. */
  ghost predicate SavedAt(t: seq<Event>, p: nat)
    requires p < |t|
  {
    match t[p]
    case StageStart(i, _) => p + 1 < |t| && t[p + 1].Saved? && StageIs(t[p + 1].detail, i, Running) && EndSaved(t, p, i)
    case StepLogged(i, j) =>
      && p > 0 && t[p - 1].Saved? && StageIs(t[p - 1].detail, i, Running) && StepIs(t[p - 1].detail, i, j, Running)
      && ResultSaved(t, p, i, j)
    case Pre(c, _) =>
      c.kind.StepAction? ==> p > 1 && t[p - 1] == StepLogged(c.stage, c.step) && t[p - 2].Saved?
                             && t[p - 2].detail.status == Running
    case _ => true
  }

  ghost predicate SavedThroughout(t: seq<Event>) {
    forall p :: 0 <= p < |t| ==> SavedAt(t, p)
  }

  lemma ShiftedAt(a: seq<Event>, b: seq<Event>, c: seq<Event>, p: nat)
    requires p < |b| && SavedAt(b, p)
    ensures SavedAt(a + b + c, |a| + p)
  {
    hide StageIs, StepIs;
    var t := a + b + c;
    assert forall k :: 0 <= k < |b| ==> t[|a| + k] == b[k];
    match b[p]
    case StageStart(i, _) =>
      var q :| p < q < |b| && b[q].Saved? && NoStart(b, p, q)
               && (StageIs(b[q].detail, i, Success) || StageIs(b[q].detail, i, Fail));
      forall r | |a| + p < r < |a| + q ensures !t[r].StageStart? { assert t[r] == b[r - |a|]; }
      assert NoStart(t, |a| + p, |a| + q) && t[|a| + q] == b[q];
    case StepLogged(i, j) =>
      var q :| p < q < |b| && b[q].Saved? && NothingSaved(b, p, q)
               && StepIs(b[q].detail, i, j, if SomeFailed(b, p, q) then Fail else Success);
      forall r | |a| + p < r < |a| + q ensures !t[r].Saved? { assert t[r] == b[r - |a|]; }
      ShiftedFailed(a, b, c, p, q);
      assert NothingSaved(t, |a| + p, |a| + q) && t[|a| + q] == b[q];
    case _ =>
  }

  lemma ShiftedFailed(a: seq<Event>, b: seq<Event>, c: seq<Event>, p: nat, q: nat)
    requires q <= |b|
    ensures SomeFailed(a + b + c, |a| + p, |a| + q) <==> SomeFailed(b, p, q)
  {
    var t := a + b + c;
    assert forall k :: 0 <= k < |b| ==> t[|a| + k] == b[k];
    if SomeFailed(t, |a| + p, |a| + q) {
      var r :| |a| + p < r < |a| + q && Failed(t[r]);
      assert t[r] == b[r - |a|];
    }
    if SomeFailed(b, p, q) {
      var r :| p < r < q && Failed(b[r]);
      assert t[|a| + r] == b[r];
    }
  }

  lemma Together(a: seq<Event>, b: seq<Event>)
    requires SavedThroughout(a) && SavedThroughout(b)
    ensures SavedThroughout(a + b)
  {
    hide SavedAt;
    forall p | 0 <= p < |a + b| ensures SavedAt(a + b, p) {
      if p < |a| {
        ShiftedAt([], a, b, p);
        assert [] + a + b == a + b;
      } else {
        ShiftedAt(a, b, [], p - |a|);
        assert a + b + [] == a + b;
      }
    }
  }

  lemma {:induction false} CountsAppend(a: seq<Event>, b: seq<Event>)
    ensures Details(a + b) == Details(a) + Details(b) && Begun(a + b) == Begun(a) + Begun(b)
    decreases |b|
  {
    if b == [] {
      assert a + b == a;
    } else {
      var c := b[..|b| - 1];
      assert (a + b)[..|a + b| - 1] == a + c;
      CountsAppend(a, c);
    }
  }

  lemma OneCount(e: Event)
    ensures Details([e]) == (if e.Saved? then [e.detail] else [])
    ensures Begun([e]) == if e.StageStart? || e.StepLogged? then 1 else 0
  {
    assert [e][..0] == [];
  }

  // ---- what each part of a run adds to the trace ----

  function Posts(stack: seq<Call>): seq<Event> {
    if stack == [] then [] else [Post(stack[|stack| - 1])] + Posts(stack[..|stack| - 1])
  }

  lemma {:induction false} DrainAdds(st: RunState)
    ensures Drain(st) == st.(stack := [], trace := st.trace + Posts(st.stack))
    decreases |st.stack|
  {
    if st.stack == [] {
      assert st.trace + [] == st.trace;
    } else {
      var n := |st.stack| - 1;
      DrainAdds(Emit(st, Post(st.stack[n])).(stack := st.stack[..n]));
      assert st.trace + [Post(st.stack[n])] + Posts(st.stack[..n]) == st.trace + Posts(st.stack);
    }
  }

  lemma {:induction false} PostsAre(stack: seq<Call>)
    ensures forall k :: 0 <= k < |Posts(stack)| ==> Posts(stack)[k].Post?
  {
    if stack != [] {
      PostsAre(stack[..|stack| - 1]);
    }
  }

  /** The events of an action that is attempted. */
  function ActEvents(st: RunState, c: Call, hasHandler: bool, out: Outcome): seq<Event> {
    if st.status != Running || !hasHandler then [] else Attempt(c, out)
  }

  lemma ActAdds(st: RunState, c: Call, hasHandler: bool, out: Outcome)
    ensures Act(st, c, hasHandler, out).trace == st.trace + ActEvents(st, c, hasHandler, out)
    ensures Act(st, c, hasHandler, out).stages == st.stages
    ensures var es := ActEvents(st, c, hasHandler, out);
            Act(st, c, hasHandler, out).err <==> exists r :: 0 <= r < |es| && Failed(es[r])
  {
    var es := ActEvents(st, c, hasHandler, out);
    assert out == PreError && es != [] ==> Failed(es[0]);
    assert out == HookError && es != [] ==> Failed(es[1]);
  }

  /** A block of events that saves twice for each stage and step begun. */
  ghost predicate Balanced(b: seq<Event>) {
    |Details(b)| == 2 * Begun(b)
  }

  ghost predicate StartsNoStage(b: seq<Event>) {
    forall k :: 0 <= k < |b| ==> !b[k].StageStart?
  }

  ghost predicate StartsNothing(b: seq<Event>) {
    forall k :: 0 <= k < |b| ==> b[k].Pre? || b[k].Hook? || b[k].Post? || b[k].StepStart?
  }

  lemma {:induction false} NothingCounted(b: seq<Event>)
    requires StartsNothing(b)
    ensures Details(b) == [] && Begun(b) == 0
  {
    if b != [] {
      NothingCounted(b[..|b| - 1]);
    }
  }

  /** What the trace and the record are after one more part of stage `i`, `b` being what it did. */
  ghost predicate Adds(st: RunState, r: RunState, i: nat, b: seq<Event>) {
    && r.trace == st.trace + b && r.saved == st.saved + Details(b)
    && SavedThroughout(b) && Balanced(b) && StartsNoStage(b)
    && SameShape(st.stages, r.stages)
    && (i < |st.stages| ==> r.stages[i].status == st.stages[i].status)
  }

  ghost predicate SameShape(a: seq<StageDetail>, b: seq<StageDetail>) {
    |a| == |b| && forall i :: 0 <= i < |a| ==> |a[i].stage.steps| == |b[i].stage.steps|
  }

  lemma AddsBoth(a: RunState, b: RunState, c: RunState, i: nat, x: seq<Event>, y: seq<Event>)
    requires Adds(a, b, i, x) && Adds(b, c, i, y)
    ensures Adds(a, c, i, x + y)
  {
    hide SavedThroughout;
    Together(x, y);
    CountsAppend(x, y);
    assert a.trace + (x + y) == a.trace + x + y;
    assert a.saved + (Details(x) + Details(y)) == a.saved + Details(x) + Details(y);
  }

  lemma ContainerAdds(st: RunState, step: Step, i: nat, j: nat, o: Oracle) returns (b: seq<Event>)
    ensures Adds(st, StartContainer(Emit(st, StepStart(i, j)), step, i, j, o), i, b)
  {
    hide Act, Details, Begun;
    var c, a := Call(i, j, ContainerStart), Emit(st, StepStart(i, j));
    var es := if step.runsOn == "" then [] else ActEvents(a, c, true, o(c));
    b := [StepStart(i, j)] + es;
    ActAdds(a, c, true, o(c));
    ActSaves(a, c, true, o(c));
    NothingCounted(b);
    assert a.trace + [] == a.trace && st.saved + [] == st.saved;
    assert st.trace + b == a.trace + es;
  }

  lemma ActSaves(st: RunState, c: Call, hasHandler: bool, out: Outcome)
    ensures Act(st, c, hasHandler, out).saved == st.saved
  {
  }

  lemma StepAdds(st: RunState, step: Step, i: nat, j: nat, o: Oracle) returns (b: seq<Event>)
    requires StageIs(Snapshot(st.status, st.stages), i, Running) && j < |st.stages[i].stage.steps|
    ensures Adds(st, FinishStep(st, step, i, j, o), i, b)
  {
    hide Act, Drain, HasAction, SavedThroughout, Details, Begun, Posts;
    var c := Call(i, j, StepAction);
    var s := st.(stages := SetStep(st.stages, i, j, Running));
    var a := Emit(Save(s), StepLogged(i, j));
    var acted := Act(a, c, HasAction(step), o(c));
    var es, ps := ActEvents(a, c, HasAction(step), o(c)), Posts(acted.stack);
    ActAdds(a, c, HasAction(step), o(c));
    ActSaves(a, c, HasAction(step), o(c));
    DrainAdds(acted);
    PostsAre(acted.stack);
    var e := Drain(acted);
    var d := Snapshot(s.status, s.stages);
    var f := Snapshot(e.status, SetStep(e.stages, i, j, if e.err then Fail else Success));
    b := StepBlock(d, f, i, j, es, ps);
    StepBlockSaved(d, f, i, j, es, ps, o(c), e.err);
    StepBlockCounts(d, f, i, j, es, ps);
    assert FinishStep(st, step, i, j, o).trace == st.trace + b;
    assert st.saved + [d] + [f] == st.saved + [d, f];
  }

  function StepBlock(d: Snapshot, f: Snapshot, i: nat, j: nat, es: seq<Event>, ps: seq<Event>): seq<Event> {
    [Saved(d), StepLogged(i, j)] + es + ps + [Saved(f)]
  }

  lemma StepBlockSaved(d: Snapshot, f: Snapshot, i: nat, j: nat, es: seq<Event>, ps: seq<Event>, out: Outcome,
                       err: bool)
    requires StageIs(d, i, Running) && StepIs(d, i, j, Running) && StepIs(f, i, j, if err then Fail else Success)
    requires es != [] ==> d.status == Running
    requires es == [] || es == Attempt(Call(i, j, StepAction), out)
    requires err <==> exists r :: 0 <= r < |es| && Failed(es[r])
    requires forall k :: 0 <= k < |ps| ==> ps[k].Post?
    ensures SavedThroughout(StepBlock(d, f, i, j, es, ps))
  {
    hide StageIs, StepIs;
    var b := StepBlock(d, f, i, j, es, ps);
    var q := |b| - 1;
    assert forall k :: 0 <= k < |es| ==> b[2 + k] == es[k];
    assert forall k :: 0 <= k < |ps| ==> b[2 + |es| + k] == ps[k];
    assert NothingSaved(b, 1, q);
    assert SomeFailed(b, 1, q) <==> err by {
      if err {
        var r :| 0 <= r < |es| && Failed(es[r]);
        assert Failed(b[2 + r]);
      }
    }
    assert ResultSaved(b, 1, i, j);
  }

  lemma StepBlockCounts(d: Snapshot, f: Snapshot, i: nat, j: nat, es: seq<Event>, ps: seq<Event>)
    requires StartsNothing(es) && StartsNothing(ps)
    ensures var b := StepBlock(d, f, i, j, es, ps);
            Details(b) == [d, f] && Balanced(b) && StartsNoStage(b)
  {
    hide Details, Begun;
    var head := [Saved(d), StepLogged(i, j)];
    CountsAppend(head + es + ps, [Saved(f)]);
    CountsAppend(head + es, ps);
    CountsAppend(head, es);
    CountsAppend([Saved(d)], [StepLogged(i, j)]);
    assert [Saved(d)] + [StepLogged(i, j)] == head;
    OneCount(Saved(d));
    OneCount(StepLogged(i, j));
    OneCount(Saved(f));
    NothingCounted(es);
    NothingCounted(ps);
    assert [d] + [] + [] + [] + [f] == [d, f];
    NoStageIn(head, es);
    NoStageIn(head + es, ps);
    NoStageIn(head + es + ps, [Saved(f)]);
  }

  lemma NoStageIn(a: seq<Event>, b: seq<Event>)
    requires StartsNoStage(a) && StartsNoStage(b)
    ensures StartsNoStage(a + b)
  {
  }

  lemma {:induction false} StepsAdd(steps: seq<Step>, st: RunState, i: nat, j: nat, o: Oracle) returns (b: seq<Event>)
    requires StageIs(Snapshot(st.status, st.stages), i, Running) && |steps| == |st.stages[i].stage.steps|
    ensures Adds(st, RunSteps(steps, st, i, j, o), i, b)
    decreases |steps| - j
  {
    hide Adds, StartContainer, FinishStep;
    if j >= |steps| {
      b := [];
      AddsNothing(st, i);
    } else {
      var c := StartContainer(Emit(st, StepStart(i, j)), steps[j], i, j, o);
      b := ContainerAdds(st, steps[j], i, j, o);
      if !(steps[j].runsOn != "" && c.err) {
        AddsKeep(st, c, i, b);
        var x := StepAdds(c, steps[j], i, j, o);
        AddsBoth(st, c, FinishStep(c, steps[j], i, j, o), i, b, x);
        AddsKeep(st, FinishStep(c, steps[j], i, j, o), i, b + x);
        var y := StepsAdd(steps, FinishStep(c, steps[j], i, j, o), i, j + 1, o);
        AddsBoth(st, FinishStep(c, steps[j], i, j, o), RunSteps(steps, st, i, j, o), i, b + x, y);
        b := b + x + y;
      }
    }
  }

  lemma AddsNothing(st: RunState, i: nat)
    ensures Adds(st, st, i, [])
  {
    assert st.trace + [] == st.trace && st.saved + [] == st.saved;
  }

  lemma AddsKeep(st: RunState, r: RunState, i: nat, b: seq<Event>)
    requires Adds(st, r, i, b) && StageIs(Snapshot(st.status, st.stages), i, Running)
    ensures StageIs(Snapshot(r.status, r.stages), i, Running)
    ensures |r.stages[i].stage.steps| == |st.stages[i].stage.steps|
  {
  }

  /** What a whole stage, or several, did. */
  ghost predicate AddsStages(st: RunState, r: RunState, b: seq<Event>) {
    && r.trace == st.trace + b && r.saved == st.saved + Details(b)
    && SavedThroughout(b) && Balanced(b) && SameShape(st.stages, r.stages)
  }

  lemma StageAdds(plan: seq<StageDetail>, st: RunState, i: nat, o: Oracle) returns (b: seq<Event>)
    requires i < |plan| && SameShape(plan, st.stages)
    ensures AddsStages(st, RunStage(plan, st, i, o), b)
  {
    hide RunSteps, SavedThroughout, Details;
    var steps, a := plan[i].stage.steps, BeginStage(st, i);
    var r := RunSteps(steps, a, i, 0, o);
    var x := StepsAdd(steps, a, i, 0, o);
    var d := Snapshot(a.status, a.stages);
    var f := Snapshot(r.status, SetStage(r.stages, i, if r.err then Fail else Success));
    b := StageBlock(i, st.stages, d, x, f);
    StageBlockSaved(i, st.stages, d, x, f);
    StageBlockCounts(i, st.stages, d, x, f);
    assert RunStage(plan, st, i, o).trace == st.trace + b;
    assert st.saved + [d] + Details(x) + [f] == st.saved + ([d] + Details(x) + [f]);
  }

  function StageBlock(i: nat, stages: seq<StageDetail>, d: Snapshot, x: seq<Event>, f: Snapshot): seq<Event> {
    [StageStart(i, stages), Saved(d)] + x + [Saved(f)]
  }

  lemma StageBlockSaved(i: nat, stages: seq<StageDetail>, d: Snapshot, x: seq<Event>, f: Snapshot)
    requires SavedThroughout(x) && StartsNoStage(x)
    requires StageIs(d, i, Running) && (StageIs(f, i, Success) || StageIs(f, i, Fail))
    ensures SavedThroughout(StageBlock(i, stages, d, x, f))
  {
    hide StageIs, StepIs, ResultSaved;
    var b := StageBlock(i, stages, d, x, f);
    var q := |b| - 1;
    assert forall k :: 0 <= k < |x| ==> b[2 + k] == x[k];
    assert NoStart(b, 0, q);
    assert EndSaved(b, 0, i);
    forall p | 0 <= p < |b| ensures SavedAt(b, p) {
      if 2 <= p < q {
        ShiftedAt([StageStart(i, stages), Saved(d)], x, [Saved(f)], p - 2);
      }
    }
  }

  lemma StageBlockCounts(i: nat, stages: seq<StageDetail>, d: Snapshot, x: seq<Event>, f: Snapshot)
    requires Balanced(x)
    ensures var b := StageBlock(i, stages, d, x, f);
            Details(b) == [d] + Details(x) + [f] && Balanced(b)
  {
    CountsAppend([StageStart(i, stages), Saved(d)] + x, [Saved(f)]);
    CountsAppend([StageStart(i, stages), Saved(d)], x);
    CountsAppend([StageStart(i, stages)], [Saved(d)]);
    assert [StageStart(i, stages)] + [Saved(d)] == [StageStart(i, stages), Saved(d)];
    OneCount(Saved(d));
    OneCount(StageStart(i, stages));
    OneCount(Saved(f));
  }

  lemma {:induction false} StagesAdd(plan: seq<StageDetail>, st: RunState, i: nat, o: Oracle) returns (b: seq<Event>)
    requires SameShape(plan, st.stages)
    ensures AddsStages(st, RunStages(plan, st, i, o), b)
    decreases |plan| - i
  {
    hide RunStage, SavedThroughout, Details, Begun, SavedAt;
    if i >= |plan| {
      b := [];
      NothingAdded(st);
    } else {
      var s := RunStage(plan, st, i, o);
      b := StageAdds(plan, st, i, o);
      if !s.err {
        var x := StagesAdd(plan, s, i + 1, o);
        Together(b, x);
        CountsAppend(b, x);
        assert st.trace + (b + x) == st.trace + b + x;
        assert st.saved + (Details(b) + Details(x)) == st.saved + Details(b) + Details(x);
        b := b + x;
      }
    }
  }

  lemma NothingAdded(st: RunState)
    ensures AddsStages(st, st, [])
  {
    assert st.trace + [] == st.trace && st.saved + [] == st.saved;
  }

  // ---- whole runs ----

  /** In every run: an action's `Pre` comes right after its step was logged, and that right after a detail was saved
      with the job, the stage and the step RUNNING; the next detail saved has the step's result; a stage is saved as
      RUNNING when it starts and as ended before the next one starts. Two details are saved for each stage and each
      step, and one at the end. */
  lemma WhatIsSaved(plan: seq<StageDetail>, mkdirFailed: bool, o: Oracle)
    ensures var r := Run(plan, mkdirFailed, o);
            && SavedThroughout(r.trace)
            && Details(r.trace) == r.saved && |r.saved| == 2 * Begun(r.trace) + 1
  {
    hide RunStages, SavedThroughout, Details, Begun, SavedAt;
    var st := Initial(plan, mkdirFailed);
    var e := RunStages(plan, st, 0, o);
    var b := StagesAdd(plan, st, 0, o);
    assert e.trace == b && e.saved == Details(b);
    var d := Snapshot(if e.err then Fail else Success, e.stages);
    LastSaved(d);
    Together(b, [Saved(d)]);
    CountsAppend(b, [Saved(d)]);
    OneCount(Saved(d));
  }

  lemma LastSaved(d: Snapshot)
    ensures SavedThroughout([Saved(d)])
  {
  }

  /** So while an action runs, the detail saved last shows its job, its stage and its step RUNNING. */
  lemma RunningWhileActing(plan: seq<StageDetail>, mkdirFailed: bool, o: Oracle, p: nat)
    requires p < |Run(plan, mkdirFailed, o).trace|
    requires Run(plan, mkdirFailed, o).trace[p].Pre? && Run(plan, mkdirFailed, o).trace[p].call.kind.StepAction?
    ensures var t, c := Run(plan, mkdirFailed, o).trace, Run(plan, mkdirFailed, o).trace[p].call;
            && p >= 2 && t[p - 2].Saved? && !t[p - 1].Saved?
            && c.stage < |t[p - 2].detail.stages| && c.step < |t[p - 2].detail.stages[c.stage].stage.steps|
            && t[p - 2].detail.status == Running
            && t[p - 2].detail.stages[c.stage].status == Running
            && t[p - 2].detail.stages[c.stage].stage.steps[c.step].status == Running
  {
    hide Run;
    WhatIsSaved(plan, mkdirFailed, o);
    var t := Run(plan, mkdirFailed, o).trace;
    assert SavedAt(t, p) && SavedAt(t, p - 1);
  }
}
