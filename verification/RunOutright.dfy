/** What runs and how it ends, read off the plan and the outcomes alone: which actions a step has by the names it may
    use, and for every action whether its `Pre`, `Hook` and `Post` run. */
module RunOutright {
  import opened Results
  import opened Model
  import opened RunSpec
  import opened RunProofs
  import opened Cleanup
  import opened RunTheorems
  import StageRecords

  // ---- which calls a plan makes ----

  /** The action of a step is run exactly when it uses one of these names or some remote action, or has a container,
      which then stands in for it; a container is started exactly when the step names one. */
  lemma CallsOfPlan(plan: seq<StageDetail>, i: nat, j: nat)
    ensures Call(i, j, StepAction) in Calls(plan, 0) <==>
            && i < |plan| && j < |plan[i].stage.steps|
            && var step := plan[i].stage.steps[j];
               || step.runsOn != "" || '/' in step.uses
               || step.uses in {"", "shell", "git-checkout", "hamster-ipfs", "hamster-pinata-ipfs",
                                "hamster-artifactory", "image-build", "image-push", "k8s-frontend-deploy",
                                "k8s-assign-domain", "metascan_action", "sol-profiler-check", "solhint-check",
                                "mythril-check", "slither-check", "check-aggregation", "deploy-ink-contract",
                                "frontend-check", "eth-gas-reporter", "aptos-check", "workdir", "openai", "icp-build",
                                "icp-deploy"}
    ensures Call(i, j, ContainerStart) in Calls(plan, 0) <==>
            i < |plan| && j < |plan[i].stage.steps| && plan[i].stage.steps[j].runsOn != ""
  {
    hide Calls, HasAction;
    MembersOfCalls(plan, 0, i, j);
    if i < |plan| && j < |plan[i].stage.steps| {
      WhoseAction(plan[i].stage.steps[j]);
    }
  }

  /** What a step's action is: the one its `uses` names, whether or not it has a container; failing that, its
      container. */
  lemma WhoseAction(step: Step)
    ensures var named := || '/' in step.uses
                         || step.uses in {"", "shell", "git-checkout", "hamster-ipfs", "hamster-pinata-ipfs",
                                          "hamster-artifactory", "image-build", "image-push", "k8s-frontend-deploy",
                                          "k8s-assign-domain", "metascan_action", "sol-profiler-check",
                                          "solhint-check", "mythril-check", "slither-check", "check-aggregation",
                                          "deploy-ink-contract", "frontend-check", "eth-gas-reporter", "aptos-check",
                                          "workdir", "openai", "icp-build", "icp-deploy"};
            && (named ==> HandlerOf(step) == Some(Action(step.uses)))
            && (!named && step.runsOn != "" ==> HandlerOf(step) == Some(Container))
            && (HasAction(step) <==> named || step.runsOn != "")
  {
  }

  lemma {:induction false} MembersOfSteps(steps: seq<Step>, i: nat, k: nat, a: nat, j: nat)
    ensures Call(a, j, StepAction) in StepCalls(steps, i, k) <==> a == i && k <= j < |steps| && HasAction(steps[j])
    ensures Call(a, j, ContainerStart) in StepCalls(steps, i, k) <==>
            a == i && k <= j < |steps| && steps[j].runsOn != ""
    decreases |steps| - k
  {
    hide HasAction;
    if k < |steps| {
      MembersOfSteps(steps, i, k + 1, a, j);
      var first, second := ContainerCalls(steps[k], i, k), ActionCalls(steps[k], i, k);
      var rest := StepCalls(steps, i, k + 1);
      MembersOfParts(first, second, rest, Call(a, j, StepAction));
      MembersOfParts(first, second, rest, Call(a, j, ContainerStart));
    }
  }

  lemma MembersOfParts(a: seq<Call>, b: seq<Call>, rest: seq<Call>, c: Call)
    ensures c in a + (b + rest) <==> c in a || c in b || c in rest
  {
  }

  lemma {:induction false} MembersOfCalls(plan: seq<StageDetail>, k: nat, i: nat, j: nat)
    ensures Call(i, j, StepAction) in Calls(plan, k) <==>
            k <= i < |plan| && j < |plan[i].stage.steps| && HasAction(plan[i].stage.steps[j])
    ensures Call(i, j, ContainerStart) in Calls(plan, k) <==>
            k <= i < |plan| && j < |plan[i].stage.steps| && plan[i].stage.steps[j].runsOn != ""
    decreases |plan| - k
  {
    hide HasAction, StepCalls;
    if k < |plan| {
      MembersOfSteps(plan[k].stage.steps, k, 0, i, j);
      MembersOfCalls(plan, k + 1, i, j);
    }
  }

  /** Earlier stages first, then earlier steps, and a step's container before its action. */
  predicate Before(c: Call, d: Call) {
    || c.stage < d.stage
    || (c.stage == d.stage && c.step < d.step)
    || (c.stage == d.stage && c.step == d.step && c.kind.ContainerStart? && d.kind.StepAction?)
  }

  ghost predicate InOrder(cs: seq<Call>) {
    forall a, b :: 0 <= a < b < |cs| ==> Before(cs[a], cs[b])
  }

  lemma InOrderAppend(a: seq<Call>, b: seq<Call>)
    requires InOrder(a) && InOrder(b) && forall c, d :: c in a && d in b ==> Before(c, d)
    ensures InOrder(a + b)
  {
    hide Before;
    var s := a + b;
    forall x, y | 0 <= x < y < |s| ensures Before(s[x], s[y]) {
      if x < |a| <= y { assert s[x] in a && s[y] in b; }
    }
  }

  lemma {:induction false} StepCallsInOrder(steps: seq<Step>, i: nat, j: nat)
    ensures InOrder(StepCalls(steps, i, j)) && AllFrom(StepCalls(steps, i, j), i, j)
    decreases |steps| - j
  {
    hide HasAction;
    if j < |steps| {
      var a, b, rest := ContainerCalls(steps[j], i, j), ActionCalls(steps[j], i, j), StepCalls(steps, i, j + 1);
      StepCallsInOrder(steps, i, j + 1);
      InOrderAppend(b, rest);
      InOrderAppend(a, b + rest);
    }
  }

  lemma {:induction false} CallsInOrder(plan: seq<StageDetail>, i: nat)
    ensures InOrder(Calls(plan, i))
    ensures forall k :: 0 <= k < |Calls(plan, i)| ==> Calls(plan, i)[k].stage >= i
    decreases |plan| - i
  {
    hide StepCalls, InOrder;
    if i < |plan| {
      StepCallsInOrder(plan[i].stage.steps, i, 0);
      CallsInOrder(plan, i + 1);
      InOrderAppend(StepCalls(plan[i].stage.steps, i, 0), Calls(plan, i + 1));
    } else {
      NoneInOrder();
    }
  }

  lemma NoneInOrder()
    ensures InOrder([])
  {
  }

  // ---- which of them are reached ----

  /** Nothing before `c` has failed. */
  ghost predicate AllDoneBefore(plan: seq<StageDetail>, o: Oracle, c: Call) {
    forall d :: d in Calls(plan, 0) && Before(d, c) ==> o(d) == Done
  }

  lemma {:induction false} UpToMembers(cs: seq<Call>, o: Oracle, c: Call)
    requires InOrder(cs)
    ensures c in UpTo(cs, o) <==> c in cs && forall d :: d in cs && Before(d, c) ==> o(d) == Done
  {
    if cs != [] {
      var h, rest := cs[0], cs[1..];
      UpToMembers(rest, o, c);
      assert cs == [h] + rest;
      assert forall d :: d in rest ==> Before(h, d);
    }
  }

  lemma ReachedIff(plan: seq<StageDetail>, o: Oracle, c: Call)
    ensures c in UpTo(Calls(plan, 0), o) <==> c in Calls(plan, 0) && AllDoneBefore(plan, o, c)
    ensures Decisive(plan, o) == Some(c) <==> c in Calls(plan, 0) && AllDoneBefore(plan, o, c) && o(c) != Done
  {
    hide Calls, UpTo, FirstFailure, InOrder, Before;
    CallsInOrder(plan, 0);
    UpToMembers(Calls(plan, 0), o, c);
    FailureInUpTo(Calls(plan, 0), o, c);
  }

  // ---- what runs ----

  function Times(t: seq<Event>, e: Event): nat {
    multiset(t)[e]
  }

  lemma {:induction false} TimesOfActions(t: seq<Event>, e: Event)
    requires IsAction(e)
    ensures Times(Actions(t), e) == Times(t, e)
  {
    if t != [] {
      TimesOfActions(t[..|t| - 1], e);
      assert t == t[..|t| - 1] + [t[|t| - 1]];
    }
  }

  function TimesAttempted(c: Call, out: Outcome, e: Event): nat {
    match e
    case Pre(d, ok) => if d == c && ok == (out != PreError) then 1 else 0
    case Hook(d, ok) => if d == c && out != PreError && ok == (out == Done) then 1 else 0
    case _ => 0
  }

  lemma OneAttempt(c: Call, out: Outcome, e: Event)
    requires IsAction(e)
    ensures Times(Attempt(c, out), e) == TimesAttempted(c, out, e)
  {
  }

  lemma {:induction false} AttemptsHold(cs: seq<Call>, o: Oracle, e: Event)
    requires IsAction(e) && NoRepeats(cs)
    ensures Times(Attempts(cs, o), e) == if e.call in cs then TimesAttempted(e.call, o(e.call), e) else 0
  {
    hide Attempt;
    if cs != [] {
      var c, rest := cs[0], cs[1..];
      assert cs == [c] + rest && c !in rest;
      AttemptsHold(rest, o, e);
      OneAttempt(c, o(c), e);
      assert multiset(Attempt(c, o(c)) + Attempts(rest, o)) == multiset(Attempt(c, o(c))) + multiset(Attempts(rest, o));
    }
  }

  lemma PrefixRepeatsNothing(a: seq<Call>, b: seq<Call>)
    requires a <= b && NoRepeats(b)
    ensures NoRepeats(a)
  {
  }

  /** In every run, for every call of the plan before which nothing failed: its `Pre` runs once, its `Hook` once if
      that succeeds, and its `Post` once after that, unless it is the start of a container whose `Hook` failed. Of any
      other call nothing runs; nor of any call if the working directory is missing and the first stage has no step. */
  lemma WhatRuns(plan: seq<StageDetail>, mkdirFailed: bool, o: Oracle, c: Call)
    ensures var t := Run(plan, mkdirFailed, o).trace;
            var runs := && !(mkdirFailed && (plan == [] || plan[0].stage.steps == []))
                        && c in Calls(plan, 0) && AllDoneBefore(plan, o, c);
            && Times(t, Pre(c, true)) == (if runs && o(c) != PreError then 1 else 0)
            && Times(t, Pre(c, false)) == (if runs && o(c) == PreError then 1 else 0)
            && Times(t, Hook(c, true)) == (if runs && o(c) == Done then 1 else 0)
            && Times(t, Hook(c, false)) == (if runs && o(c) == HookError then 1 else 0)
            && Posted(t)[c]
               == (if runs && (o(c) == Done || (o(c) == HookError && c.kind.StepAction?)) then 1 else 0)
  {
    hide Run, Calls, Attempts, Actions, UpTo, Posted, AllDoneBefore, NoRepeats, Times;
    var t, cs := Run(plan, mkdirFailed, o).trace, UpTo(Calls(plan, 0), o);
    ActionsRunUpToFirstFailure(plan, mkdirFailed, o);
    EachPreparedActionIsPostedOnce(plan, mkdirFailed, o, c);
    ReachedIff(plan, o, c);
    CallsDiffer(plan, 0);
    UpToIsPrefix(Calls(plan, 0), o);
    PrefixRepeatsNothing(cs, Calls(plan, 0));
    RunsAsAttempted(t, cs, o, Pre(c, true), Stillborn(plan, mkdirFailed));
    RunsAsAttempted(t, cs, o, Pre(c, false), Stillborn(plan, mkdirFailed));
    RunsAsAttempted(t, cs, o, Hook(c, true), Stillborn(plan, mkdirFailed));
    RunsAsAttempted(t, cs, o, Hook(c, false), Stillborn(plan, mkdirFailed));
  }

  lemma RunsAsAttempted(t: seq<Event>, cs: seq<Call>, o: Oracle, e: Event, nothing: bool)
    requires IsAction(e) && NoRepeats(cs) && Actions(t) == if nothing then [] else Attempts(cs, o)
    ensures Times(t, e) == if !nothing && e.call in cs then TimesAttempted(e.call, o(e.call), e) else 0
  {
    hide Actions, Attempts, NoRepeats;
    TimesOfActions(t, e);
    AttemptsHold(cs, o, e);
  }

  /** When nothing fails, every step's action runs that the names above give one, and every container. */
  lemma WhatRunsWhenNothingFails(plan: seq<StageDetail>, mkdirFailed: bool, o: Oracle, c: Call)
    requires forall d :: o(d) == Done
    requires !(mkdirFailed && (plan == [] || plan[0].stage.steps == []))
    ensures var t := Run(plan, mkdirFailed, o).trace;
            (c in Calls(plan, 0) <==> Pre(c, true) in t) && (c in Calls(plan, 0) <==> Hook(c, true) in t)
  {
    hide Run, Calls, Posted;
    WhatRuns(plan, mkdirFailed, o, c);
  }

  // ---- how it ends ----

  /** The job ends FAIL exactly when the working directory is missing and the first stage has no step, or when some
      call of the plan fails, none before it does, and it starts a container or is the last of its stage. */
  lemma HowItEnds(plan: seq<StageDetail>, mkdirFailed: bool, o: Oracle)
    requires StageRecords.Marked(plan, plan, 0, NotRun)
    ensures var r := Run(plan, mkdirFailed, o);
            && r.status in {Success, Fail}
            && (r.status == Fail <==>
                || (mkdirFailed && (plan == [] || plan[0].stage.steps == []))
                || exists c :: && c in Calls(plan, 0) && AllDoneBefore(plan, o, c) && o(c) != Done
                               && c.stage < |plan|
                               && (c.kind.ContainerStart? || c.step + 1 == |plan[c.stage].stage.steps|))
  {
    hide Run, Calls, AllDoneBefore, StageRecords.Marked, FirstFailure;
    FinalStatus(plan, mkdirFailed, o);
    CallsComeFrom(plan, 0, o);
    var f := Decisive(plan, o);
    if f.Some? { ReachedIff(plan, o, f.value); }
    forall c | c in Calls(plan, 0) && AllDoneBefore(plan, o, c) && o(c) != Done ensures f == Some(c) {
      ReachedIff(plan, o, c);
    }
  }

  /** The first call of the plan that fails. */
  ghost predicate FailsFirst(plan: seq<StageDetail>, o: Oracle, c: Call) {
    c in Calls(plan, 0) && AllDoneBefore(plan, o, c) && o(c) != Done
  }

  /** How every step is recorded in the end. A step is performed unless a container that fails to start keeps it from
      it, its own or an earlier one, or an earlier stage failed in its last step. Then it is FAIL if its action is the
      first call to fail, and SUCCESS otherwise; any other step keeps the status it had. */
  lemma HowStepsEnd(plan: seq<StageDetail>, mkdirFailed: bool, o: Oracle, a: nat, b: nat)
    requires a < |plan| && b < |plan[a].stage.steps|
    ensures var r := Run(plan, mkdirFailed, o);
            var performed := && !(mkdirFailed && plan[0].stage.steps == [])
                             && forall c :: FailsFirst(plan, o, c) && c.stage < |plan| ==>
                                  if c.kind.ContainerStart? then a < c.stage || (a == c.stage && b < c.step)
                                  else c.step + 1 == |plan[c.stage].stage.steps| ==> a <= c.stage;
            && a < |r.stages| && b < |r.stages[a].stage.steps|
            && r.stages[a].stage.steps[b].status
               == if !performed then plan[a].stage.steps[b].status
                  else if FailsFirst(plan, o, Call(a, b, StepAction)) then Fail
                  else Success
  {
    hide Run, Calls, AllDoneBefore, FirstFailure;
    StepsAreRecorded(plan, mkdirFailed, o, a, b);
    CallsComeFrom(plan, 0, o);
    var f := Decisive(plan, o);
    if f.Some? { ReachedIff(plan, o, f.value); }
    forall c ensures FailsFirst(plan, o, c) <==> f == Some(c) {
      ReachedIff(plan, o, c);
    }
  }
}
