/** The main results about whole runs: for every plan, every outcome of every action, and a
    working directory that could or could not be created. */
module RunTheorems {
  import opened Results
  import opened Model
  import opened RunSpec
  import opened RunProofs
  import opened Cleanup
  import opened StageRecords
  import Scheduling

  /** The failure that decides a run. */
  function Decisive(plan: seq<StageDetail>, o: Oracle): Option<Call> {
    FirstFailure(Calls(plan, 0), o)
  }

  // ---- which actions run ----

  /** The actions attempted are exactly those of the plan, in order, up to the first that fails. */
  lemma ActionsRunUpToFirstFailure(plan: seq<StageDetail>, mkdirFailed: bool, o: Oracle)
    ensures Actions(Run(plan, mkdirFailed, o).trace)
            == if Stillborn(plan, mkdirFailed) then [] else Attempts(UpTo(Calls(plan, 0), o), o)
  {
    hide Calls, Attempts, UpTo, FirstFailure, RunStage;
    var st := Initial(plan, mkdirFailed);
    if Stillborn(plan, mkdirFailed) {
      StillbornRun(plan, st, o);
    } else {
      StagesFollow(plan, st, 0, o);
    }
  }

  lemma StillbornRun(plan: seq<StageDetail>, st: RunState, o: Oracle)
    requires st.err && (plan == [] || plan[0].stage.steps == [])
    ensures RunStages(plan, st, 0, o) == if plan == [] then st else EndStage(BeginStage(st, 0), 0)
    ensures RunStages(plan, st, 0, o).err
    ensures Actions(RunStages(plan, st, 0, o).trace) == Actions(st.trace)
  {
    if plan != [] {
      ActionsSnoc(st.trace, StageStart(0, st.stages));
      assert RunStage(plan, st, 0, o) == EndStage(BeginStage(st, 0), 0);
    }
  }

  /** Whenever a run gets as far as the action of a step that has a container and an unknown `uses`, it starts that
      container twice in a row, before the step and as its action; and no other call comes between. */
  lemma UnknownUsesStartsContainerTwice(plan: seq<StageDetail>, mkdirFailed: bool, o: Oracle, i: nat, j: nat)
    returns (before: seq<Call>, after: seq<Call>)
    requires i < |plan| && j < |plan[i].stage.steps| && !Stillborn(plan, mkdirFailed)
    requires plan[i].stage.steps[j].runsOn != "" && !Recognized(plan[i].stage.steps[j].uses)
    requires Call(i, j, StepAction) in UpTo(Calls(plan, 0), o)
    ensures HandlerOf(plan[i].stage.steps[j]) == Some(Container)
    ensures var c, a := Call(i, j, ContainerStart), Call(i, j, StepAction);
            && UpTo(Calls(plan, 0), o) == before + [c, a] + after && c !in before + after && a !in before + after
            && Actions(Run(plan, mkdirFailed, o).trace)
               == Attempts(before, o) + (Attempt(c, Done) + Attempt(a, o(a))) + Attempts(after, o)
  {
    hide Run, Recognized, Actions, UpTo, Calls, Attempts, Stillborn;
    var c, a := Call(i, j, ContainerStart), Call(i, j, StepAction);
    ActionsRunUpToFirstFailure(plan, mkdirFailed, o);
    var pre, post := CallsAround(plan, i, j);
    before, after := UpToAround(pre, c, a, post, o);
    AttemptsAppend(before + [c, a], after, o);
    AttemptsAppend(before, [c, a], o);
    TwoAttempts(c, a, o);
  }

  lemma TwoAttempts(c: Call, a: Call, o: Oracle)
    ensures Attempts([c, a], o) == Attempt(c, o(c)) + Attempt(a, o(a))
  {
    AttemptsAppend([c], [a], o);
    assert [c] + [a] == [c, a];
    OneCall(c, o);
    OneCall(a, o);
  }

  /** The two calls of a step are neighbours among those of the plan, and found nowhere else. */
  lemma CallsAround(plan: seq<StageDetail>, i: nat, j: nat) returns (pre: seq<Call>, post: seq<Call>)
    requires i < |plan| && j < |plan[i].stage.steps|
    requires plan[i].stage.steps[j].runsOn != "" && HasAction(plan[i].stage.steps[j])
    ensures Calls(plan, 0) == pre + [Call(i, j, ContainerStart), Call(i, j, StepAction)] + post
    ensures NoRepeats(pre + [Call(i, j, ContainerStart), Call(i, j, StepAction)] + post)
  {
    hide Calls, StepCalls, NoRepeats, HasAction, ContainerCalls, ActionCalls;
    var steps := plan[i].stage.steps;
    var a, d := StagesBefore(plan, 0, i);
    var b, e := StepsBefore(steps, i, 0, j);
    pre, post := a + b, e + d;
    assert Calls(plan, 0) == pre + [Call(i, j, ContainerStart), Call(i, j, StepAction)] + post;
    CallsDiffer(plan, 0);
  }

  lemma {:induction false} StagesBefore(plan: seq<StageDetail>, k: nat, i: nat)
    returns (pre: seq<Call>, post: seq<Call>)
    requires k <= i < |plan|
    ensures Calls(plan, k) == pre + StepCalls(plan[i].stage.steps, i, 0) + post
    decreases i - k
  {
    hide StepCalls;
    if k == i {
      pre, post := [], Calls(plan, k + 1);
    } else {
      pre, post := StagesBefore(plan, k + 1, i);
      pre := StepCalls(plan[k].stage.steps, k, 0) + pre;
    }
  }

  lemma {:induction false} StepsBefore(steps: seq<Step>, i: nat, k: nat, j: nat)
    returns (pre: seq<Call>, post: seq<Call>)
    requires k <= j < |steps| && steps[j].runsOn != "" && HasAction(steps[j])
    ensures StepCalls(steps, i, k) == pre + [Call(i, j, ContainerStart), Call(i, j, StepAction)] + post
    decreases j - k
  {
    hide HasAction;
    var c, a := Call(i, j, ContainerStart), Call(i, j, StepAction);
    var pair := [c, a];
    if k == j {
      pre, post := [], StepCalls(steps, i, k + 1);
      TwoFirst(c, a, post);
    } else {
      hide ContainerCalls, ActionCalls;
      pre, post := StepsBefore(steps, i, k + 1, j);
      pre := WithBoth(ContainerCalls(steps[k], i, k), ActionCalls(steps[k], i, k), pre, pair, post);
    }
  }

  lemma TwoFirst(c: Call, a: Call, rest: seq<Call>)
    ensures [c] + ([a] + rest) == [] + [c, a] + rest
  {
  }

  lemma WithBoth(a: seq<Call>, b: seq<Call>, pre: seq<Call>, pair: seq<Call>, post: seq<Call>)
    returns (all: seq<Call>)
    ensures a + (b + (pre + pair + post)) == all + pair + post
  {
    all := a + (b + pre);
    assert b + (pre + pair + post) == b + pre + pair + post;
  }

  /** What comes before the second of two neighbouring calls has all been done when that one is reached. */
  lemma UpToAround(pre: seq<Call>, c: Call, a: Call, post: seq<Call>, o: Oracle)
    returns (before: seq<Call>, after: seq<Call>)
    requires NoRepeats(pre + [c, a] + post) && a in UpTo(pre + [c, a] + post, o)
    ensures UpTo(pre + [c, a] + post, o) == before + [c, a] + after && o(c) == Done
    ensures c !in before + after && a !in before + after
  {
    hide FirstFailure, NoRepeats, UpTo;
    FoundApart(pre, c, a, post);
    var tail := if o(a) == Done then UpTo(post, o) else [];
    Regrouped(pre, c, a, post);
    Regrouped(pre, c, a, tail);
    UpToIsPrefix(pre, o);
    UpToIsPrefix(post, o);
    UpToAppend(pre, [c, a] + post, o);
    UpToTwo(c, a, post, o);
    assert a !in UpTo(pre, o) && a !in pre + [c];
    before, after := pre, tail;
  }

  lemma Regrouped(pre: seq<Call>, c: Call, a: Call, post: seq<Call>)
    ensures pre + [c, a] + post == pre + ([c, a] + post)
  {
  }

  lemma FoundApart(pre: seq<Call>, c: Call, a: Call, post: seq<Call>)
    requires NoRepeats(pre + [c, a] + post)
    ensures c !in pre && a !in pre && c != a && c !in post && a !in post
  {
    assert pre + [c, a] + post == pre + [c] + ([a] + post);
    assert pre + [c, a] + post == pre + [c] + [a] + post;
    FoundOnce(pre, c, [a] + post);
    FoundOnce(pre + [c], a, post);
    assert a in [a] + post && c in pre + [c];
    assert forall x :: x in pre ==> x in pre + [c];
  }

  lemma UpToTwo(c: Call, a: Call, post: seq<Call>, o: Oracle)
    ensures UpTo([c, a] + post, o)
            == if o(c) != Done then [c] else [c, a] + if o(a) == Done then UpTo(post, o) else []
  {
    assert ([c, a] + post)[1..] == [a] + post;
    assert ([a] + post)[1..] == post;
  }

  lemma FoundOnce(pre: seq<Call>, c: Call, post: seq<Call>)
    requires NoRepeats(pre + [c] + post)
    ensures c !in pre && c !in post
  {
    var cs := pre + [c] + post;
    assert forall k :: 0 <= k < |pre| ==> cs[k] == pre[k];
    assert forall k :: 0 <= k < |post| ==> cs[|pre| + 1 + k] == post[k];
    assert cs[|pre|] == c;
  }

  predicate Failed(e: Event) {
    IsAction(e) && !e.ok
  }

  /** After an action returns an error, no later `Pre` or `Hook` runs. */
  lemma NothingStartsAfterFailure(plan: seq<StageDetail>, mkdirFailed: bool, o: Oracle, p: nat, q: nat)
    requires p < q < |Run(plan, mkdirFailed, o).trace|
    requires Failed(Run(plan, mkdirFailed, o).trace[p])
    ensures !IsAction(Run(plan, mkdirFailed, o).trace[q])
  {
    hide Run, Calls, Attempts, UpTo, Actions;
    var t := Run(plan, mkdirFailed, o).trace;
    ActionsRunUpToFirstFailure(plan, mkdirFailed, o);
    ActionIndex(t, p);
    if IsAction(t[q]) {
      ActionIndex(t, q);
      ActionsGrow(t, p + 1, q);
      FailureIsLast(Calls(plan, 0), o, |Actions(t[..p])|);
    }
  }

  /** An action event of `t` is found among its actions, after those before it. */
  lemma {:induction false} ActionIndex(t: seq<Event>, p: nat)
    requires p < |t| && IsAction(t[p])
    ensures |Actions(t[..p + 1])| == |Actions(t[..p])| + 1
    ensures |Actions(t[..p])| < |Actions(t)| && Actions(t)[|Actions(t[..p])|] == t[p]
  {
    ActionsSnoc(t[..p], t[p]);
    assert t[..p + 1] == t[..p] + [t[p]];
    ActionsPrefix(t, p + 1);
  }

  lemma {:induction false} ActionsPrefix(t: seq<Event>, n: nat)
    requires n <= |t|
    ensures Actions(t[..n]) <= Actions(t)
    decreases |t| - n
  {
    if n == |t| {
      assert t[..n] == t;
    } else {
      ActionsSnoc(t[..n], t[n]);
      assert t[..n + 1] == t[..n] + [t[n]];
      ActionsPrefix(t, n + 1);
    }
  }

  lemma ActionsGrow(t: seq<Event>, n: nat, m: nat)
    requires n <= m <= |t|
    ensures |Actions(t[..n])| <= |Actions(t[..m])|
  {
    ActionsPrefix(t[..m], n);
    assert t[..m][..n] == t[..n];
  }

  lemma {:induction false} FailureIsLast(cs: seq<Call>, o: Oracle, k: nat)
    requires k < |Attempts(UpTo(cs, o), o)| && Failed(Attempts(UpTo(cs, o), o)[k])
    ensures k == |Attempts(UpTo(cs, o), o)| - 1
  {
    if cs != [] {
      var a := Attempt(cs[0], o(cs[0]));
      if o(cs[0]) == Done {
        assert Attempts(UpTo(cs, o), o) == a + Attempts(UpTo(cs[1..], o), o);
        FailureIsLast(cs[1..], o, k - |a|);
      } else {
        OneCall(cs[0], o);
      }
    }
  }

  // ---- cleanup ----

  /** The trace obeys the stack discipline, every step begins with an empty stack, and the only
      call without a `Post` is a container start whose own `Hook` failed. */
  lemma CleanupIsComplete(plan: seq<StageDetail>, mkdirFailed: bool, o: Oracle)
    ensures var left := if Stillborn(plan, mkdirFailed) then [] else LeftOpen(Decisive(plan, o), o);
            var t := Run(plan, mkdirFailed, o).trace;
            && Open(t) == Some(left)
            && Opened(t) == Posted(t) + multiset(left)
  {
    hide Calls, FirstFailure, Opened, Posted, RunStage, Open, Actions;
    var st := Initial(plan, mkdirFailed);
    OpenNothing();
    if Stillborn(plan, mkdirFailed) {
      StillbornRun(plan, st, o);
      if plan != [] {
        BeginStageKeepsStack(st, 0);
        EndStageKeepsStack(BeginStage(st, 0), 0);
      }
    } else {
      StagesKeepStack(plan, st, 0, o);
    }
    var e := RunStages(plan, st, 0, o);
    SaveKeepsStack(e.(status := if e.err then Fail else Success));
    OpenedIsPostedPlusOpen(Run(plan, mkdirFailed, o).trace);
  }

  lemma OpenNothing()
    ensures Open([]) == Some([])
  {
  }

  /** At the start of a stage or a step every call opened so far has had its `Post`. */
  lemma {:induction false} StepsBeginClean(t: seq<Event>, p: nat)
    requires Open(t).Some? && p < |t| && (t[p].StepStart? || t[p].StageStart?)
    ensures Open(t[..p]) == Some([]) && Opened(t[..p]) == Posted(t[..p])
    decreases |t|
  {
    hide Opened, Posted;
    var u := t[..|t| - 1];
    if p == |t| - 1 {
      OpenedIsPostedPlusOpen(u);
    } else {
      assert u[..p] == t[..p] && u[p] == t[p];
      StepsBeginClean(u, p);
    }
  }

  /** The calls of a plan are pairwise different. */
  ghost predicate NoRepeats(cs: seq<Call>) {
    forall a, b :: 0 <= a < b < |cs| ==> cs[a] != cs[b]
  }

  ghost predicate AllFrom(cs: seq<Call>, i: nat, j: nat) {
    forall k :: 0 <= k < |cs| ==> cs[k].stage == i && cs[k].step >= j
  }

  lemma NoRepeatsAppend(a: seq<Call>, b: seq<Call>)
    requires NoRepeats(a) && NoRepeats(b) && forall x, y :: x in a && y in b ==> x != y
    ensures NoRepeats(a + b)
  {
    var s := a + b;
    forall x, y | 0 <= x < y < |s| ensures s[x] != s[y] {
      if x < |a| <= y { assert s[x] in a && s[y] in b; }
    }
  }

  lemma {:induction false} StepCallsDiffer(steps: seq<Step>, i: nat, j: nat)
    ensures NoRepeats(StepCalls(steps, i, j)) && AllFrom(StepCalls(steps, i, j), i, j)
    decreases |steps| - j
  {
    hide HasAction;
    NoCallsDiffer();
    if j < |steps| {
      var a, b, rest := ContainerCalls(steps[j], i, j), ActionCalls(steps[j], i, j), StepCalls(steps, i, j + 1);
      hide NoRepeats, AllFrom;
      StepCallsDiffer(steps, i, j + 1);
      OneCallDiffers(Call(i, j, ContainerStart));
      OneCallDiffers(Call(i, j, StepAction));
      PutBefore(Call(i, j, StepAction), rest, i, j, j + 1);
      var more := b + rest;
      assert b == [] ==> more == rest;
      AllFromLess(rest, i, j, j + 1);
      PutBefore(Call(i, j, ContainerStart), more, i, j, j);
      assert a == [] ==> a + more == more;
    }
  }

  lemma AllFromLess(cs: seq<Call>, i: nat, j: nat, k: nat)
    requires AllFrom(cs, i, k) && j <= k
    ensures AllFrom(cs, i, j)
  {
  }

  /** A call of step `j` and those that follow it. */
  lemma PutBefore(c: Call, rest: seq<Call>, i: nat, j: nat, k: nat)
    requires NoRepeats(rest) && AllFrom(rest, i, k) && c.stage == i && c.step == j <= k
    requires forall d :: d in rest && d.step == j ==> d.kind != c.kind
    ensures NoRepeats([c] + rest) && AllFrom([c] + rest, i, j)
  {
    var s := [c] + rest;
    forall x, y | 0 <= x < y < |s| ensures s[x] != s[y] {
      assert s[y] == rest[y - 1] && rest[y - 1] in rest;
    }
    forall x | 0 <= x < |s| ensures s[x].stage == i && s[x].step >= j {
      if x > 0 { assert s[x] == rest[x - 1]; }
    }
  }

  lemma NoCallsDiffer()
    ensures NoRepeats([])
  {
  }

  lemma OneCallDiffers(c: Call)
    ensures NoRepeats([c])
  {
  }

  lemma {:induction false} CallsDiffer(plan: seq<StageDetail>, i: nat)
    ensures NoRepeats(Calls(plan, i))
    ensures forall k :: 0 <= k < |Calls(plan, i)| ==> Calls(plan, i)[k].stage >= i
    decreases |plan| - i
  {
    hide StepCalls, NoRepeats;
    NoCallsDiffer();
    if i < |plan| {
      StepCallsDiffer(plan[i].stage.steps, i, 0);
      CallsDiffer(plan, i + 1);
      NoRepeatsAppend(StepCalls(plan[i].stage.steps, i, 0), Calls(plan, i + 1));
    }
  }

  /** The calls among `cs` whose `Pre` succeeds. */
  function Prepared(cs: seq<Call>, o: Oracle): seq<Call> {
    if cs == [] then []
    else (if o(cs[0]) != PreError then [cs[0]] else []) + Prepared(cs[1..], o)
  }

  lemma {:induction false} PreparedMembers(cs: seq<Call>, o: Oracle)
    requires NoRepeats(cs)
    ensures forall c :: multiset(Prepared(cs, o))[c] == if c in cs && o(c) != PreError then 1 else 0
  {
    if cs != [] {
      PreparedMembers(cs[1..], o);
      assert cs == [cs[0]] + cs[1..];
      assert cs[0] !in cs[1..];
    }
  }

  lemma {:induction false} UpToIsPrefix(cs: seq<Call>, o: Oracle)
    ensures UpTo(cs, o) <= cs
  {
    if cs != [] {
      UpToIsPrefix(cs[1..], o);
    }
  }

  lemma {:induction false} OpenedAppend(a: seq<Event>, b: seq<Event>)
    ensures Opened(a + b) == Opened(a) + Opened(b)
    decreases |b|
  {
    hide OpenedBy;
    if b == [] {
      assert a + b == a;
    } else {
      var c := b[..|b| - 1];
      assert (a + b)[..|a + b| - 1] == a + c;
      OpenedAppend(a, c);
    }
  }

  lemma OpenedOne(e: Event)
    ensures Opened([e]) == OpenedBy(e)
    ensures !IsAction(e) ==> OpenedBy(e) == multiset{}
  {
    assert [e][..0] == [];
  }

  lemma {:induction false} OpenedByActions(t: seq<Event>)
    ensures Opened(t) == Opened(Actions(t))
  {
    if t != [] {
      hide OpenedBy;
      var u, e := t[..|t| - 1], t[|t| - 1];
      OpenedByActions(u);
      OpenedOne(e);
      OpenedAppend(Actions(u), [e]);
      assert Actions(u) + [] == Actions(u);
    }
  }

  lemma OpenedByAttempt(c: Call, out: Outcome)
    ensures Opened(Attempt(c, out)) == if out == PreError then multiset{} else multiset{c}
  {
    OpenedOne(Pre(c, out != PreError));
    OpenedOne(Hook(c, out == Done));
    OpenedAppend([Pre(c, out != PreError)], [Hook(c, out == Done)]);
    assert Attempt(c, out) == if out == PreError then [Pre(c, false)] else [Pre(c, true)] + [Hook(c, out == Done)];
  }

  lemma {:induction false} OpenedByAttempts(cs: seq<Call>, o: Oracle)
    ensures Opened(Attempts(cs, o)) == multiset(Prepared(cs, o))
  {
    if cs != [] {
      OpenedByAttempts(cs[1..], o);
      OpenedAppend(Attempt(cs[0], o(cs[0])), Attempts(cs[1..], o));
      OpenedByAttempt(cs[0], o(cs[0]));
    }
  }

  /** Every action whose `Pre` succeeded gets exactly one `Post`, except a container start whose own
      `Hook` failed; nothing else gets one. */
  lemma EachPreparedActionIsPostedOnce(plan: seq<StageDetail>, mkdirFailed: bool, o: Oracle, c: Call)
    ensures Posted(Run(plan, mkdirFailed, o).trace)[c]
            == if && !Stillborn(plan, mkdirFailed) && c in UpTo(Calls(plan, 0), o) && o(c) != PreError
                  && !(c.kind.ContainerStart? && o(c) == HookError) then 1 else 0
  {
    hide Run, Calls, Attempts, Actions, Opened, Posted, Open, Prepared;
    var t := Run(plan, mkdirFailed, o).trace;
    var cs := Calls(plan, 0);
    ActionsRunUpToFirstFailure(plan, mkdirFailed, o);
    OpenedByActions(t);
    NothingOpened();
    OpenedByAttempts(UpTo(cs, o), o);
    CallsDiffer(plan, 0);
    UpToIsPrefix(cs, o);
    PreparedMembers(UpTo(cs, o), o);
    CleanupIsComplete(plan, mkdirFailed, o);
    FailureInUpTo(cs, o, c);
  }

  lemma NothingOpened()
    ensures Opened([]) == multiset{}
  {
  }

  lemma {:induction false} FailureInUpTo(cs: seq<Call>, o: Oracle, c: Call)
    ensures c in UpTo(cs, o) && o(c) != Done <==> FirstFailure(cs, o) == Some(c)
  {
    if cs != [] {
      FailureInUpTo(cs[1..], o, c);
    }
  }

  // ---- how the job ends ----

  /** The job ends FAIL exactly when the first action to fail was a container start or the last step
      of its stage, or when the working directory error was never overwritten; then, and only then,
      `Execute` returns an error, and some stage (if there is one) is recorded FAIL. */
  lemma FinalStatus(plan: seq<StageDetail>, mkdirFailed: bool, o: Oracle)
    requires Marked(plan, plan, 0, NotRun)
    ensures var r := Run(plan, mkdirFailed, o);
            && r.err == (Stillborn(plan, mkdirFailed) || FatalInPlan(plan, Decisive(plan, o)))
            && r.status == (if r.err then Fail else Success)
            && (plan != [] ==> (r.err <==> exists i :: 0 <= i < |r.stages| && r.stages[i].status == Fail))
  {
    hide Calls, FirstFailure, RunStage, Actions, Fatal;
    var st := Initial(plan, mkdirFailed);
    if Stillborn(plan, mkdirFailed) {
      StillbornRun(plan, st, o);
    } else {
      StagesFollow(plan, st, 0, o);
      if plan == [] { NoCalls(o); }
    }
    var k := StagesRecord(plan, st, 0, o);
    var e := RunStages(plan, st, 0, o);
    if e.err && plan != [] {
      assert e.stages[k].status == Fail;
    }
  }

  lemma NoCalls(o: Oracle)
    ensures Decisive([], o) == None
  {
  }

  // ---- what the records show ----

  /** In every saved job detail the stages read SUCCESS*, at most one RUNNING or FAIL, NOTRUN*; and
      every stage starts with all earlier stages succeeded and none later started. */
  lemma RecordsInOrder(plan: seq<StageDetail>, mkdirFailed: bool, o: Oracle)
    requires Marked(plan, plan, 0, NotRun)
    ensures SavedShaped(plan, Run(plan, mkdirFailed, o).saved)
    ensures StartsInTurn(plan, Run(plan, mkdirFailed, o).trace)
    ensures Run(plan, mkdirFailed, o).saved != []
    ensures Run(plan, mkdirFailed, o).saved[|Run(plan, mkdirFailed, o).saved| - 1]
            == Snapshot(Run(plan, mkdirFailed, o).status, Run(plan, mkdirFailed, o).stages)
  {
    hide RunStages, Marked;
    var st := Initial(plan, mkdirFailed);
    var k := StagesRecord(plan, st, 0, o);
    var e := RunStages(plan, st, 0, o);
    SaveRecords(plan, e.(status := if e.err then Fail else Success), k, if e.err && plan != [] then Fail else NotRun);
  }

  /** When a run has ended, no stage is recorded RUNNING, nor in the detail saved last. */
  lemma NoStageLeftRunning(plan: seq<StageDetail>, mkdirFailed: bool, o: Oracle)
    requires Marked(plan, plan, 0, NotRun)
    ensures var r := Run(plan, mkdirFailed, o);
            && (forall i :: 0 <= i < |r.stages| ==> r.stages[i].status in {Success, Fail, NotRun})
            && r.saved != [] && r.saved[|r.saved| - 1].stages == r.stages
  {
    hide RunStages;
    var st := Initial(plan, mkdirFailed);
    var k := StagesRecord(plan, st, 0, o);
    var e := RunStages(plan, st, 0, o);
    assert Marked(plan, e.stages, k, if e.err && plan != [] then Fail else NotRun);
  }

  /** Needs before dependents: a stage that is past NOTRUN has every need recorded SUCCESS. */
  ghost predicate NeedsSucceeded(stages: seq<StageDetail>, i: nat)
    requires i < |stages|
  {
    forall m :: 0 <= m < |stages[i].stage.needs| ==> SucceededBefore(stages, i, stages[i].stage.needs[m])
  }

  ghost predicate SucceededBefore(stages: seq<StageDetail>, i: nat, n: string)
    requires i < |stages|
  {
    exists j :: 0 <= j < i && stages[j].name == n && stages[j].status == Success
  }

  /** Whole-run stage safety, for the plan of any job that can be sorted. */
  lemma StagesStartAfterTheirNeeds(g: map<string, Stage>, plan: seq<StageDetail>, mkdirFailed: bool, o: Oracle)
    requires Scheduling.IsSchedule(g, plan)
    ensures var r := Run(plan, mkdirFailed, o);
            && (forall k :: 0 <= k < |r.trace| && r.trace[k].StageStart? ==>
                  r.trace[k].stage < |r.trace[k].stages| && NeedsSucceeded(r.trace[k].stages, r.trace[k].stage))
            && (forall k, i ::
                  0 <= k < |r.saved| && 0 <= i < |r.saved[k].stages| && r.saved[k].stages[i].status != NotRun ==>
                  NeedsSucceeded(r.saved[k].stages, i))
  {
    hide Run, Marked, NeedsSucceeded, Scheduling.NeedsComeFirst;
    ScheduleIsUnstarted(g, plan);
    RecordsInOrder(plan, mkdirFailed, o);
    var r := Run(plan, mkdirFailed, o);
    forall k | 0 <= k < |r.trace| && r.trace[k].StageStart?
      ensures r.trace[k].stage < |r.trace[k].stages| && NeedsSucceeded(r.trace[k].stages, r.trace[k].stage)
    {
      MarkedLength(plan, r.trace[k].stages, r.trace[k].stage, NotRun);
      MarkedNeeds(plan, r.trace[k].stages, r.trace[k].stage, NotRun, r.trace[k].stage);
    }
    forall k, i | 0 <= k < |r.saved| && 0 <= i < |r.saved[k].stages| && r.saved[k].stages[i].status != NotRun
      ensures NeedsSucceeded(r.saved[k].stages, i)
    {
      assert WellShaped(plan, r.saved[k].stages);
      var n: nat, s :| n <= |plan| && Marked(plan, r.saved[k].stages, n, s);
      StartedUpTo(plan, r.saved[k].stages, n, s, i);
      MarkedNeeds(plan, r.saved[k].stages, n, s, i);
    }
  }

  lemma ScheduleIsUnstarted(g: map<string, Stage>, plan: seq<StageDetail>)
    requires Scheduling.IsSchedule(g, plan)
    ensures Marked(plan, plan, 0, NotRun)
  {
    hide Scheduling.NeedsComeFirst, Scheduling.Distinct, Scheduling.Names;
  }

  lemma StartedUpTo(plan: seq<StageDetail>, stages: seq<StageDetail>, k: nat, s: Status, i: nat)
    requires Marked(plan, stages, k, s) && i < |stages| && stages[i].status != NotRun
    ensures i <= k
  {
  }

  lemma MarkedLength(plan: seq<StageDetail>, stages: seq<StageDetail>, k: nat, s: Status)
    requires Marked(plan, stages, k, s)
    ensures |stages| == |plan|
  {
  }

  lemma MarkedNeeds(plan: seq<StageDetail>, stages: seq<StageDetail>, k: nat, s: Status, i: nat)
    requires Marked(plan, stages, k, s) && Scheduling.NeedsComeFirst(plan)
    requires i <= k && i < |stages|
    ensures NeedsSucceeded(stages, i)
  {
    forall m | 0 <= m < |stages[i].stage.needs|
      ensures SucceededBefore(stages, i, stages[i].stage.needs[m])
    {
      assert stages[i].name == plan[i].name && stages[i].stage.needs == plan[i].stage.needs;
      assert Scheduling.PlacedBefore(plan, i, plan[i].stage.needs[m]);
      var j :| 0 <= j < i && plan[j].name == plan[i].stage.needs[m];
      assert stages[j].name == plan[j].name && stages[j].status == Success;
    }
  }

  /** In a well-shaped record no two stages are RUNNING. */
  lemma AtMostOneRunning(plan: seq<StageDetail>, stages: seq<StageDetail>, i: nat, j: nat)
    requires WellShaped(plan, stages) && i < |stages| && j < |stages|
    requires stages[i].status == Running && stages[j].status == Running
    ensures i == j
  {
    var k: nat, s :| k <= |plan| && Marked(plan, stages, k, s);
    assert stages[i].name == plan[i].name && stages[j].name == plan[j].name;
  }

  // ---- the step that failed ----

  function StepStatus(stages: seq<StageDetail>, i: nat, j: nat): Option<Status> {
    if i < |stages| && j < |stages[i].stage.steps| then Some(stages[i].stage.steps[j].status) else None
  }

  lemma SetStepStatus(stages: seq<StageDetail>, i: nat, j: nat, s: Status, a: nat, b: nat)
    ensures StepStatus(SetStep(stages, i, j, s), a, b)
            == if a == i && b == j && StepStatus(stages, a, b).Some? then Some(s) else StepStatus(stages, a, b)
  {
  }

  lemma SetStageStepStatus(stages: seq<StageDetail>, i: nat, s: Status, a: nat, b: nat)
    ensures StepStatus(SetStage(stages, i, s), a, b) == StepStatus(stages, a, b)
  {
  }

  /** A step is recorded by its own iteration alone. */
  lemma FinishStepStatus(st: RunState, step: Step, i: nat, j: nat, o: Oracle, a: nat, b: nat)
    ensures var r := FinishStep(st, step, i, j, o);
            StepStatus(r.stages, a, b)
            == if a == i && b == j && StepStatus(st.stages, a, b).Some? then Some(if r.err then Fail else Success)
               else StepStatus(st.stages, a, b)
  {
    hide SetStep, StepStatus, HasAction, Followed;
    var s1 := Emit(Save(st.(stages := SetStep(st.stages, i, j, Running))), StepLogged(i, j));
    var s2 := Act(s1, Call(i, j, StepAction), HasAction(step), o(Call(i, j, StepAction)));
    DrainFollows(s2, o);
    SetStepStatus(st.stages, i, j, Running, a, b);
    SetStepStatus(s1.stages, i, j, if s2.err then Fail else Success, a, b);
  }

  lemma {:induction false} StepsStatus(steps: seq<Step>, st: RunState, i: nat, j: nat, o: Oracle, a: nat, b: nat)
    requires a != i || b < j
    ensures StepStatus(RunSteps(steps, st, i, j, o).stages, a, b) == StepStatus(st.stages, a, b)
    decreases |steps| - j
  {
    hide StepStatus, FinishStep, HasAction;
    if j < |steps| {
      var c := StartContainer(Emit(st, StepStart(i, j)), steps[j], i, j, o);
      if !(steps[j].runsOn != "" && c.err) {
        FinishStepStatus(c, steps[j], i, j, o, a, b);
        StepsStatus(steps, FinishStep(c, steps[j], i, j, o), i, j + 1, o, a, b);
      }
    }
  }

  lemma {:induction false} StagesStatus(plan: seq<StageDetail>, st: RunState, i: nat, o: Oracle, a: nat, b: nat)
    requires a < i
    ensures StepStatus(RunStages(plan, st, i, o).stages, a, b) == StepStatus(st.stages, a, b)
    decreases |plan| - i
  {
    hide StepStatus, RunSteps, SetStage;
    if i < |plan| {
      var s := RunStage(plan, st, i, o);
      var r := RunSteps(plan[i].stage.steps, BeginStage(st, i), i, 0, o);
      SetStageStepStatus(st.stages, i, Running, a, b);
      StepsStatus(plan[i].stage.steps, BeginStage(st, i), i, 0, o, a, b);
      SetStageStepStatus(r.stages, i, if r.err then Fail else Success, a, b);
      if !s.err {
        StagesStatus(plan, s, i + 1, o, a, b);
      }
    }
  }

  /** A container that failed to start keeps its own step and the later ones of the stage from running. */
  predicate StoppedBefore(f: Option<Call>, b: nat) {
    f.Some? && f.value.kind.ContainerStart? && f.value.step <= b
  }

  function StatusAfter(f: Option<Call>, a: nat, b: nat): Option<Status> {
    Some(if f == Some(Call(a, b, StepAction)) then Fail else Success)
  }

  /** How the step loop leaves each step of its stage. */
  lemma {:induction false} StepsOutcome(steps: seq<Step>, st: RunState, i: nat, j: nat, o: Oracle, b: nat)
    requires j <= b < |steps| && StepStatus(st.stages, i, b).Some?
    ensures var f := if st.status == Running then FirstFailure(StepCalls(steps, i, j), o) else None;
            StepStatus(RunSteps(steps, st, i, j, o).stages, i, b)
            == if StoppedBefore(f, b) then StepStatus(st.stages, i, b) else StatusAfter(f, i, b)
    decreases |steps| - j
  {
    hide StepStatus, StartContainer, FinishStep, HasAction, FirstFailure, StepCalls;
    var s := StartContainer(Emit(st, StepStart(i, j)), steps[j], i, j, o);
    var d := FinishStep(s, steps[j], i, j, o);
    FirstFailureFromStep(steps, i, j, o);
    CallsAreInRange(steps, i, j + 1, o);
    StepIteration(st, steps[j], i, j, o);
    StartContainerStatus(st, steps[j], i, j, o);
    FinishStepStatus(s, steps[j], i, j, o, i, b);
    if b == j {
      StepsStatus(steps, d, i, j + 1, o, i, b);
    } else {
      StepsOutcome(steps, d, i, j + 1, o, b);
    }
  }

  lemma StartContainerStatus(st: RunState, step: Step, i: nat, j: nat, o: Oracle)
    ensures StartContainer(Emit(st, StepStart(i, j)), step, i, j, o).stages == st.stages
  {
  }

  /** Whether the run gets as far as performing step `b` of stage `a`. */
  predicate Reached(plan: seq<StageDetail>, f: Option<Call>, a: nat, b: nat) {
    match f
    case None => true
    case Some(c) =>
      if c.kind.ContainerStart? then a < c.stage || (a == c.stage && b < c.step)
      else FatalInPlan(plan, f) ==> a <= c.stage
  }

  lemma {:induction false} StagesOutcome(plan: seq<StageDetail>, st: RunState, i: nat, o: Oracle, a: nat, b: nat)
    requires i <= a < |plan| && b < |plan[a].stage.steps| && StepStatus(st.stages, a, b).Some?
    requires st.err ==> st.status == Running && plan[i].stage.steps != []
    ensures var f := if st.status == Running then FirstFailure(Calls(plan, i), o) else None;
            StepStatus(RunStages(plan, st, i, o).stages, a, b)
            == if Reached(plan, f, a, b) then StatusAfter(f, a, b) else StepStatus(st.stages, a, b)
    decreases |plan| - i
  {
    hide StepStatus, RunSteps, FirstFailure, Followed, StepCalls, SetStage, Calls;
    var steps := plan[i].stage.steps;
    var head := StepCalls(steps, i, 0);
    var begun := BeginStage(st, i);
    var r := RunSteps(steps, begun, i, 0, o);
    var s := RunStage(plan, st, i, o);
    FirstFailureFromStage(plan, i, o);
    StageFollows(plan, st, i, o);
    StatusFollows(st, s, head, o);
    if steps == [] { EmptyStage(i, o); }
    SetStageStepStatus(st.stages, i, Running, a, b);
    SetStageStepStatus(r.stages, i, if r.err then Fail else Success, a, b);
    if a == i {
      StepsOutcome(steps, begun, i, 0, o, b);
      if !s.err { StagesStatus(plan, s, i + 1, o, a, b); }
    } else {
      StepsStatus(steps, begun, i, 0, o, a, b);
      if !s.err { StagesOutcome(plan, s, i + 1, o, a, b); }
    }
  }

  lemma FirstFailureFromStage(plan: seq<StageDetail>, i: nat, o: Oracle)
    requires i < |plan|
    ensures var f, g := FirstFailure(Calls(plan, i), o), FirstFailure(StepCalls(plan[i].stage.steps, i, 0), o);
            && f == (if g.Some? then g else FirstFailure(Calls(plan, i + 1), o))
            && (g.Some? ==> g.value.stage == i && g.value.step < |plan[i].stage.steps|)
            && (g.None? && f.Some? ==> f.value.stage > i)
  {
    hide StepCalls, FirstFailure;
    FirstFailureAppend(StepCalls(plan[i].stage.steps, i, 0), Calls(plan, i + 1), o);
    CallsAreInRange(plan[i].stage.steps, i, 0, o);
    CallsComeFrom(plan, i + 1, o);
  }

  lemma {:induction false} CallsComeFrom(plan: seq<StageDetail>, i: nat, o: Oracle)
    ensures var f := FirstFailure(Calls(plan, i), o);
            f.Some? ==> i <= f.value.stage < |plan| && f.value.step < |plan[f.value.stage].stage.steps|
    decreases |plan| - i
  {
    hide StepCalls;
    if i < |plan| {
      CallsAreInRange(plan[i].stage.steps, i, 0, o);
      CallsComeFrom(plan, i + 1, o);
      FirstFailureAppend(StepCalls(plan[i].stage.steps, i, 0), Calls(plan, i + 1), o);
    }
  }

  /** How the run leaves every step: a step it performed is recorded FAIL if its action was the first
      to fail and SUCCESS otherwise, even when nothing of it ran any more; any other keeps its status. */
  lemma StepsAreRecorded(plan: seq<StageDetail>, mkdirFailed: bool, o: Oracle, a: nat, b: nat)
    requires a < |plan| && b < |plan[a].stage.steps|
    ensures StepStatus(Run(plan, mkdirFailed, o).stages, a, b)
            == if !Stillborn(plan, mkdirFailed) && Reached(plan, Decisive(plan, o), a, b)
               then StatusAfter(Decisive(plan, o), a, b)
               else StepStatus(plan, a, b)
  {
    hide Calls, FirstFailure, RunStages, Reached, SetStage, StepStatus;
    var st := Initial(plan, mkdirFailed);
    if Stillborn(plan, mkdirFailed) {
      StillbornRun(plan, st, o);
      SetStageStepStatus(plan, 0, Running, a, b);
      SetStageStepStatus(SetStage(plan, 0, Running), 0, Fail, a, b);
    } else {
      StepIsUnrecorded(plan, a, b);
      StagesOutcome(plan, st, 0, o, a, b);
    }
  }

  lemma StepIsUnrecorded(plan: seq<StageDetail>, a: nat, b: nat)
    requires a < |plan| && b < |plan[a].stage.steps|
    ensures StepStatus(plan, a, b).Some?
  {
  }

  /** The overwritten error: when the first action to fail is not the last step of its stage, its
      step is recorded FAIL, yet the job ends SUCCESS with no stage recorded FAIL. */
  lemma JobSucceedsOverFailedStep(plan: seq<StageDetail>, mkdirFailed: bool, o: Oracle)
    requires Marked(plan, plan, 0, NotRun) && !Stillborn(plan, mkdirFailed)
    requires Decisive(plan, o).Some? && !FatalInPlan(plan, Decisive(plan, o))
    ensures var r := Run(plan, mkdirFailed, o); var c := Decisive(plan, o).value;
            && StepStatus(r.stages, c.stage, c.step) == Some(Fail)
            && r.status == Success && !r.err
            && forall i :: 0 <= i < |r.stages| ==> r.stages[i].status != Fail
  {
    hide Calls, FirstFailure, RunStages;
    var c := Decisive(plan, o).value;
    CallsComeFrom(plan, 0, o);
    FinalStatus(plan, mkdirFailed, o);
    StepsAreRecorded(plan, mkdirFailed, o, c.stage, c.step);
    assert c == Call(c.stage, c.step, StepAction);
  }
}
