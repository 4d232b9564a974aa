/** `Executor` and the queue loop of `ExecutorClient`: the code whose effect `RunSpec` and `Registry`
    state. Each method runs as one atomic step. */
module Execution {
  import opened Results
  import opened Text
  import opened JobKeys
  import opened Model
  import opened Stacks
  import opened RunSpec
  import Registry
  import opened StepTimers
  import RunProofs
  import RunTheorems
  import Scheduling

  /** The job detail of one run and the cleanup stack its closure captures. */
  class JobRun {
    var status: Status
    var stages: seq<StageDetail>
    const stack: Stack<Call>
    ghost var trace: seq<Event>
    ghost var saved: seq<Snapshot>

    constructor (stages: seq<StageDetail>)
      ensures fresh(this) && fresh(stack)
      ensures forall err :: State(err) == Initial(stages, err)
    {
      var s := new Stack<Call>();
      this.status := Running;
      this.stages := stages;
      this.stack := s;
      this.trace := [];
      this.saved := [];
    }

    ghost function State(err: bool): RunState
      reads this, stack
    {
      RunState(status, stages, err, stack.elements, trace, saved)
    }

    /** The periodic saver aside, the job detail is written after every change of a status. */
    method SaveJobDetail()
      modifies this`saved, this`trace
      ensures forall err :: State(err) == Save(old(State(err)))
    {
      saved := saved + [Snapshot(status, stages)];
      trace := trace + [Saved(Snapshot(status, stages))];
    }

    method MarkStage(i: nat, s: Status)
      modifies this`stages
      ensures forall err :: State(err) == old(State(err)).(stages := SetStage(old(stages), i, s))
    {
      stages := SetStage(stages, i, s);
    }

    method MarkStep(i: nat, j: nat, s: Status)
      modifies this`stages
      ensures forall err :: State(err) == old(State(err)).(stages := SetStep(old(stages), i, j, s))
    {
      stages := SetStep(stages, i, j, s);
    }

    ghost method Note(e: Event)
      modifies this`trace
      ensures forall err :: State(err) == Emit(old(State(err)), e)
    {
      trace := trace + [e];
    }

    /** A job that is not running, or a missing handler, is no error. */
    method ExecuteAction(c: Call, hasHandler: bool, out: Outcome) returns (err: bool)
      modifies this, stack
      ensures State(err) == Act(old(State(false)), c, hasHandler, out)
    {
      ghost var st := State(false);
      if status != Running {
        return false;
      }
      if !hasHandler {
        return false;
      }
      if out == PreError {
        Note(Pre(c, false));
        status := Fail;
        return true;
      }
      Note(Pre(c, true));
      stack.Push(c);
      assert State(false) == Emit(st, Pre(c, true)).(stack := st.stack + [c]);
      if out == HookError {
        Note(Hook(c, false));
        status := Fail;
        return true;
      }
      Note(Hook(c, true));
      return false;
    }

    method PostAll()
      modifies this`trace, stack
      ensures forall err :: State(err) == Drain(old(State(err)))
    {
      ghost var st := State(false);
      var done := stack.IsEmpty();
      while !done
        invariant done <==> stack.elements == []
        invariant status == st.status && stages == st.stages && saved == st.saved
        invariant Drain(State(false)) == Drain(st)
        decreases |stack.elements|
      {
        ghost var before := stack.elements;
        var ah := stack.Pop();
        assert before[..|before| - 1] == stack.elements;
        Note(Post(ah.value));
        done := stack.IsEmpty();
      }
      forall err ensures State(err) == Drain(old(State(err))) {
        DrainIgnoresErr(st, err);
      }
    }

    /** One iteration of the step loop after the container start. */
    method PerformStep(step: Step, i: nat, j: nat, o: Oracle) returns (err: bool)
      modifies this, stack
      ensures forall e :: State(err) == FinishStep(old(State(e)), step, i, j, o)
    {
      ghost var st := State(false);
      MarkStep(i, j, Running);
      SaveJobDetail();
      Note(StepLogged(i, j));
      err := ExecuteAction(Call(i, j, StepAction), HasAction(step), o(Call(i, j, StepAction)));
      PostAll();
      MarkStep(i, j, if err then Fail else Success);
      SaveJobDetail();
      forall e ensures FinishStep(old(State(e)), step, i, j, o) == FinishStep(st, step, i, j, o) {
        var begun := Emit(Save(st.(stages := SetStep(st.stages, i, j, Running))), StepLogged(i, j));
        ActIgnoresErr(begun, e, Call(i, j, StepAction), HasAction(step), o(Call(i, j, StepAction)));
      }
    }
  }

  lemma {:induction false} DrainIgnoresErr(st: RunState, e: bool)
    ensures Drain(st.(err := e)) == Drain(st).(err := e)
    decreases |st.stack|
  {
    if st.stack != [] {
      var n := |st.stack| - 1;
      DrainIgnoresErr(Emit(st, Post(st.stack[n])).(stack := st.stack[..n]), e);
    }
  }

  lemma ActIgnoresErr(st: RunState, e: bool, c: Call, hasHandler: bool, out: Outcome)
    ensures Act(st.(err := e), c, hasHandler, out) == Act(st, c, hasHandler, out)
  {
  }

  class Executor {
    var cancelMap: map<string, nat>
    var statusChan: seq<StatusMessage>
    var stepTimerMap: map<string, int>
    ghost var called: seq<nat>
    ghost var history: seq<Registry.Op>

    ghost function State(): Registry.State
      reads this
    {
      Registry.State(cancelMap, stepTimerMap, statusChan, called)
    }

    /** The maps and the channel are what the operations so far make of them. */
    ghost predicate Valid()
      reads this
    {
      State() == Registry.Run(history)
    }

    constructor ()
      ensures Valid() && history == [] && State() == Registry.Empty
    {
      cancelMap, statusChan, stepTimerMap, called, history := map[], [], map[], [], [];
    }

    /** Records the operation that led from `before` to the present state. */
    ghost method Did(op: Registry.Op, before: Registry.State)
      requires before == Registry.Run(history) && State() == Registry.Apply(before, op)
      modifies this`history
      ensures Valid() && history == old(history) + [op]
    {
      hide Registry.Run, Registry.Apply;
      Registry.RunSnoc(history, op);
      history := history + [op];
    }

    method StoreTimer(name: string, id: Int64, now: int)
      requires Valid()
      modifies this`stepTimerMap, this`history
      ensures Valid() && history == old(history) + [Registry.SetTimer(name, id, now)]
      ensures stepTimerMap == old(stepTimerMap)[FormatJobToString(name, id) := now]
    {
      hide FormatJobToString, Registry.Run;
      ghost var before := State();
      stepTimerMap := stepTimerMap[FormatJobToString(name, id) := now];
      Did(Registry.SetTimer(name, id, now), before);
    }

    /** The step loop of one stage. `base` is what happened before the run's first step. */
    method RunStepLoop(run: JobRun, name: string, id: Int64, steps: seq<Step>, i: nat, err0: bool, o: Oracle,
                       clock: (nat, nat) -> int, ghost base: seq<Registry.Op>)
      returns (err: bool)
      requires Valid() && history == base + Timers(run.trace, name, id, clock)
      modifies this`stepTimerMap, this`history, run, run.stack
      ensures run.State(err) == RunSteps(steps, old(run.State(err0)), i, 0, o)
      ensures Valid() && history == base + Timers(run.trace, name, id, clock)
      ensures stepTimerMap - {FormatJobToString(name, id)} == old(stepTimerMap) - {FormatJobToString(name, id)}
    {
      hide HasAction, FinishStep, Act, FormatJobToString, Timers, Executor.Valid;
      err := err0;
      for j := 0 to |steps|
        invariant RunSteps(steps, run.State(err), i, j, o) == RunSteps(steps, old(run.State(err0)), i, 0, o)
        invariant Valid() && history == base + Timers(run.trace, name, id, clock)
        invariant stepTimerMap - {FormatJobToString(name, id)} == old(stepTimerMap) - {FormatJobToString(name, id)}
      {
        ghost var before := run.State(err);
        StartContainerTimers(before, steps[j], i, j, o, name, id, clock);
        run.Note(StepStart(i, j));
        ghost var started := run.State(err);
        if steps[j].runsOn != "" {
          ActIgnoresErr(started, false, Call(i, j, ContainerStart), true, o(Call(i, j, ContainerStart)));
          err := run.ExecuteAction(Call(i, j, ContainerStart), true, o(Call(i, j, ContainerStart)));
          if err {
            assert run.State(err) == StartContainer(Emit(before, StepStart(i, j)), steps[j], i, j, o);
            break;
          }
        }
        ghost var c := run.State(err);
        assert c == StartContainer(Emit(before, StepStart(i, j)), steps[j], i, j, o);
        FinishStepTimers(c, steps[j], i, j, o, name, id, clock);
        StoreTimer(name, id, clock(i, j));
        assert run.State(err) == c;
        err := run.PerformStep(steps[j], i, j, o);
        assert run.State(err) == FinishStep(c, steps[j], i, j, o);
      }
    }

    /** A run whose stage failed calls its own cancel function. */
    method CallCancel(name: string, id: Int64, token: nat)
      requires Valid()
      modifies this`called, this`history
      ensures Valid() && history == old(history) + [Registry.Abort(name, id, token)]
      ensures called == old(called) + [token]
    {
      hide Registry.Run;
      ghost var before := State();
      called := called + [token];
      Did(Registry.Abort(name, id, token), before);
    }

    /** The stage loop. */
    method RunStageLoop(run: JobRun, name: string, id: Int64, token: nat, err0: bool, o: Oracle,
                        clock: (nat, nat) -> int, ghost base: seq<Registry.Op>)
      returns (err: bool)
      requires Valid() && history == base + Timers(run.trace, name, id, clock)
      modifies this`stepTimerMap, this`called, this`history, run, run.stack
      ensures run.State(err) == RunStages(old(run.stages), old(run.State(err0)), 0, o)
      ensures Valid()
      ensures history == base + Timers(run.trace, name, id, clock)
                         + if err && old(run.stages) != [] then [Registry.Abort(name, id, token)] else []
      ensures called == old(called) + if err && old(run.stages) != [] then [token] else []
      ensures stepTimerMap - {FormatJobToString(name, id)} == old(stepTimerMap) - {FormatJobToString(name, id)}
    {
      hide RunSteps, FormatJobToString, SetStage, Timers, Executor.Valid, Save;
      err := err0;
      var stages := run.stages;
      for i := 0 to |stages|
        invariant i > 0 ==> !err
        invariant RunStages(stages, run.State(err), i, o) == RunStages(stages, old(run.State(err0)), 0, o)
        invariant Valid() && history == base + Timers(run.trace, name, id, clock) && called == old(called)
        invariant stepTimerMap - {FormatJobToString(name, id)} == old(stepTimerMap) - {FormatJobToString(name, id)}
      {
        ghost var before := run.State(err);
        BeginStageTimers(before, i, name, id, clock);
        run.Note(StageStart(i, run.stages));
        run.MarkStage(i, Running);
        run.SaveJobDetail();
        assert run.State(err) == BeginStage(before, i);
        err := RunStepLoop(run, name, id, stages[i].stage.steps, i, err, o, clock, base);
        ghost var stepped := run.State(err);
        EndStageTimers(stepped, i, name, id, clock);
        run.MarkStage(i, if err then Fail else Success);
        run.SaveJobDetail();
        assert run.State(err) == EndStage(stepped, i);
        assert run.State(err) == RunStage(stages, before, i, o);
        if err {
          CallCancel(name, id, token);
          break;
        }
      }
    }

    /** What a run does last: the cancel entry goes, the final status is sent, the timer goes. */
    method Finish(name: string, id: Int64, status: Status)
      requires Valid()
      modifies this
      ensures Valid() && history == old(history) + [Registry.End(name, id, status)]
      ensures State() == Registry.Apply(old(State()), Registry.End(name, id, status))
      ensures statusChan == old(statusChan) + [StatusMessage(name, id, status)]
    {
      hide FormatJobToString, Registry.Run;
      ghost var before := State();
      cancelMap := cancelMap - {name};
      statusChan := statusChan + [StatusMessage(name, id, status)];
      stepTimerMap := stepTimerMap - {FormatJobToString(name, id)};
      Did(Registry.End(name, id, status), before);
    }

    /** From here on the run can be cancelled. */
    method Begin(name: string, id: Int64, token: nat)
      requires Valid()
      modifies this`cancelMap, this`history
      ensures Valid() && history == old(history) + [Registry.Begin(name, id, token)]
      ensures State() == Registry.Apply(old(State()), Registry.Begin(name, id, token))
      ensures statusChan == old(statusChan)
    {
      hide CancelKey, Registry.Run;
      ghost var before := State();
      cancelMap := cancelMap[CancelKey(name, id) := token];
      Did(Registry.Begin(name, id, token), before);
    }

    /** A job that can be sorted, from the point where its run is registered. */
    method RunSorted(plan: seq<StageDetail>, name: string, id: Int64, token: nat, mkdirFailed: bool, o: Oracle,
                     clock: (nat, nat) -> int)
      returns (err: bool, ghost r: RunState)
      requires Valid()
      modifies this
      ensures Valid()
      ensures r == Run(plan, mkdirFailed, o) && err == r.err
      ensures State() == AfterRun(old(State()), plan, r, name, id, token)
      ensures history == old(history) + RunOps(plan, r, name, id, token, clock)
      ensures statusChan == old(statusChan) + [StatusMessage(name, id, r.status)]
    {
      hide FormatJobToString, RunStages, Timers, Registry.Apply, Aborted, Executor.Valid;
      var run := new JobRun(plan);
      err := mkdirFailed;
      Begin(name, id, token);
      NoTimers(name, id, clock);
      ghost var base, begun := history, State();
      assert base + [] == base;
      assert run.State(err) == Initial(plan, mkdirFailed);
      err := RunStageLoop(run, name, id, token, err, o, clock, base);
      ghost var ran, end := State(), run.State(err);
      ConcludeTimers(end, name, id, clock);
      run.status := if err then Fail else Success;
      run.SaveJobDetail();
      r := run.State(err);
      assert r == Conclude(end);
      EndIgnoresTimer(begun, ran, name, id, token, Aborts(plan, r), r.status);
      Finish(name, id, run.status);
    }

    /** `token` stands for the cancel function of this run. The deferred send happens on every path. */
    method Execute(job: Job, id: Int64, token: nat, mkdirFailed: bool, o: Oracle, clock: (nat, nat) -> int)
      returns (err: bool, ghost plan: seq<StageDetail>, ghost r: RunState)
      requires Valid()
      modifies this
      ensures Valid()
      ensures !Sortable(job.stages) ==>
                && err && State() == Registry.Apply(old(State()), Registry.Reject(job.name, id))
                && history == old(history) + [Registry.Reject(job.name, id)]
                && statusChan == old(statusChan) + [StatusMessage(job.name, id, NotRun)]
      ensures Sortable(job.stages) ==>
                && Scheduling.IsSchedule(job.stages, plan)
                && r == Run(plan, mkdirFailed, o)
                && err == r.err
                && State() == AfterRun(old(State()), plan, r, job.name, id, token)
                && history == old(history) + RunOps(plan, r, job.name, id, token, clock)
                && statusChan == old(statusChan) + [StatusMessage(job.name, id, r.status)]
    {
      hide FormatJobToString, Run, AfterRun, RunOps, Registry.Run;
      hide Scheduling.IsSchedule, Scheduling.Acyclic, Scheduling.AllNeedsDefined;
      plan, r := [], Initial([], false);
      var sorted := Scheduling.StageSort(job.stages);
      if sorted.Err? {
        ghost var before := State();
        err := true;
        statusChan := statusChan + [StatusMessage(job.name, id, NotRun)];
        stepTimerMap := stepTimerMap - {FormatJobToString(job.name, id)};
        Did(Registry.Reject(job.name, id), before);
        return;
      }
      plan := sorted.value;
      err, r := RunSorted(sorted.value, job.name, id, token, mkdirFailed, o, clock);
    }

    /** The second message for a run that returned an error. */
    method ReportFailure(name: string, id: Int64)
      requires Valid()
      modifies this`statusChan, this`history
      ensures Valid() && history == old(history) + [Registry.Report(name, id, Fail)]
      ensures statusChan == old(statusChan) + [StatusMessage(name, id, Fail)]
    {
      hide Registry.Run;
      ghost var before := State();
      statusChan := statusChan + [StatusMessage(name, id, Fail)];
      Did(Registry.Report(name, id, Fail), before);
    }

    /** Calls exactly the function the history assigns to the job, if any. */
    method Cancel(name: string, id: Int64)
      requires Valid()
      modifies this
      ensures Valid() && history == old(history) + [Registry.CancelJob(name, id)]
      ensures State() == Registry.Cancel(old(State()), name, id)
      ensures called == old(called) + match Registry.RegisteredAt(old(history), name, id)
                                      case None => []
                                      case Some(token) => [token]
    {
      hide CancelKey, Registry.Run, Registry.RegisteredAt;
      ghost var before := State();
      Registry.MapsFollowHistory(history, name, id);
      var key := CancelKey(name, id);
      if key in cancelMap {
        called := called + [cancelMap[key]];
        cancelMap := cancelMap - {key};
      }
      statusChan := statusChan + [StatusMessage(name, id, Stop)];
      Did(Registry.CancelJob(name, id), before);
    }

    /** RUNNING, or not found. */
    method GetJobStatus(name: string, id: Int64) returns (r: Result<Status, ()>)
      requires Valid()
      ensures r == if Registry.RegisteredAt(history, name, id).Some? then Ok(Running) else Err(())
    {
      hide CancelKey, Registry.Run, Registry.RegisteredAt;
      Registry.MapsFollowHistory(history, name, id);
      if CancelKey(name, id) in cancelMap {
        return Ok(Running);
      }
      return Err(());
    }

    method VisitTimer(key: string, now: int)
      requires Valid() && key in stepTimerMap
      modifies this
      ensures Valid() && history == old(history) + [Registry.VisitTimer(key, now)]
      ensures State() == Registry.Visit(old(State()), key, now)
      ensures var due := now - old(stepTimerMap)[key] > 1_800_000_000_000;
              match GetJobNameAndIDFromFormatString(key)
              case None => State() == old(State())
              case Some((n, i)) =>
                if !due then State() == old(State())
                else
                  && stepTimerMap == old(stepTimerMap) - {key} && cancelMap == old(cancelMap) - {CancelKey(n, i)}
                  && statusChan == old(statusChan) + [StatusMessage(n, i, Stop)]
    {
      hide GetJobNameAndIDFromFormatString, CancelKey, Registry.Run;
      ghost var before := State();
      if Registry.TimedOut(stepTimerMap[key], now) {
        var decoded := GetJobNameAndIDFromFormatString(key);
        if decoded.Some? {
          Cancel(decoded.value.0, decoded.value.1);
          history := old(history);
          stepTimerMap := stepTimerMap - {key};
        }
      }
      Did(Registry.VisitTimer(key, now), before);
    }

    /** One sweep over all step timers, in an order the program does not choose. */
    method SweepTimers(clock: string -> int)
      requires Valid()
      modifies this
      ensures Valid() && OnlyVisits(old(history), history)
      ensures Swept(old(State()), State(), Overdue(old(stepTimerMap), clock))
      ensures CalledFor(old(State()), State(), Overdue(old(stepTimerMap), clock))
      ensures var was, s := old(State()), State();
              forall n: string, i: Int64 ::
                var key := FormatJobToString(n, i);
                var due := key in was.timers && '(' !in n && clock(key) - was.timers[key] > 1_800_000_000_000;
                && (key in s.timers <==> key in was.timers && !due)
                && (CancelKey(n, i) in s.cancels <==> CancelKey(n, i) in was.cancels && !due)
                && (due ==> StatusMessage(n, i, Stop) in s.sent[|was.sent|..])
                && (due && CancelKey(n, i) in was.cancels ==> was.cancels[CancelKey(n, i)] in s.called[|was.called|..])
    {
      hide Registry.Visit, Swept, CalledFor, Overdue, Executor.Valid, FormatJobToString, CancelKey;
      hide Registry.KeysAreFormatted, Registry.IsFormatted, Registry.Run, StopFor, OnlyVisits;
      hide GetJobNameAndIDFromFormatString;
      ghost var before := State();
      ValidIsFormatted(this);
      NoVisits(history);
      var pending := stepTimerMap.Keys;
      ghost var done: set<string> := {};
      NothingSwept(before, clock);
      NothingCalled(before);
      while pending != {}
        invariant Valid() && OnlyVisits(old(history), history)
        invariant pending <= before.timers.Keys
        invariant done == Overdue(before.timers, clock) - pending
        invariant Swept(before, State(), done) && CalledFor(before, State(), done)
        invariant Registry.KeysAreFormatted(before)
        decreases pending
      {
        var key :| key in pending;
        DoneNext(Overdue(before.timers, clock), done, pending, key);
        pending := pending - {key};
        SweepOne(before, State(), done, key, clock);
        CallOne(before, State(), done, key, clock);
        OneMoreVisit(old(history), history, key, clock(key));
        VisitTimer(key, clock(key));
        if key in Overdue(before.timers, clock) {
          done := done + {key};
        }
      }
      OverdueAreTimers(before.timers, clock);
      assert Overdue(before.timers, clock) - {} == Overdue(before.timers, clock);
      SweptJobs(before, State(), clock);
    }
  }

  /** A run calls its own cancel function when one of its stages ends with an error. */
  ghost predicate Aborts(plan: seq<StageDetail>, r: RunState) {
    r.err && plan != []
  }

  /** The operations of one run, in order. */
  ghost function RunOps(plan: seq<StageDetail>, r: RunState, name: string, id: Int64, token: nat,
                        clock: (nat, nat) -> int): seq<Registry.Op> {
    [Registry.Begin(name, id, token)] + Timers(r.trace, name, id, clock)
    + (if Aborts(plan, r) then [Registry.Abort(name, id, token)] else []) + [Registry.End(name, id, r.status)]
  }

  ghost function Aborted(s: Registry.State, name: string, id: Int64, token: nat, aborts: bool): Registry.State {
    if aborts then Registry.Apply(s, Registry.Abort(name, id, token)) else s
  }

  /** What a whole run does to the state: its timers are all gone when it ends. */
  ghost function AfterRun(s: Registry.State, plan: seq<StageDetail>, r: RunState, name: string, id: Int64, token: nat)
    : Registry.State
  {
    var begun := Registry.Apply(s, Registry.Begin(name, id, token));
    Registry.Apply(Aborted(begun, name, id, token, Aborts(plan, r)), Registry.End(name, id, r.status))
  }

  /** The timer a run leaves while it runs makes no difference to the state in which it ends. */
  lemma EndIgnoresTimer(begun: Registry.State, ran: Registry.State, name: string, id: Int64, token: nat, aborts: bool,
                        status: Status)
    requires ran.cancels == begun.cancels && ran.sent == begun.sent
    requires ran.called == begun.called + if aborts then [token] else []
    requires ran.timers - {FormatJobToString(name, id)} == begun.timers - {FormatJobToString(name, id)}
    ensures Registry.Apply(ran, Registry.End(name, id, status))
            == Registry.Apply(Aborted(begun, name, id, token, aborts), Registry.End(name, id, status))
  {
    hide FormatJobToString;
  }

  /** Nothing but visits of timers happened since `past`. */
  ghost predicate OnlyVisits(past: seq<Registry.Op>, history: seq<Registry.Op>) {
    past <= history && forall k :: |past| <= k < |history| ==> history[k].VisitTimer?
  }

  lemma ValidIsFormatted(e: Executor)
    requires e.Valid()
    ensures Registry.KeysAreFormatted(e.State())
  {
    Registry.TimerKeysAreFormatted(e.history);
  }

  lemma NoVisits(history: seq<Registry.Op>)
    ensures OnlyVisits(history, history)
  {
  }

  lemma OneMoreVisit(past: seq<Registry.Op>, history: seq<Registry.Op>, key: string, now: int)
    requires OnlyVisits(past, history)
    ensures OnlyVisits(past, history + [Registry.VisitTimer(key, now)])
  {
  }

  lemma DoneNext(due: set<string>, done: set<string>, pending: set<string>, key: string)
    requires done == due - pending && key in pending
    ensures (if key in due then done + {key} else done) == due - (pending - {key}) && key !in done && done <= due
  {
  }

  /** Exactly the jobs behind the keys `done` have been cancelled, in some order. */
  ghost predicate Swept(before: Registry.State, s: Registry.State, done: set<string>) {
    && s.timers == before.timers - done
    && s.cancels == before.cancels - CancelKeys(done)
    && before.sent <= s.sent && |s.sent| == |before.sent| + |done|
    && forall k :: k in done ==> StopFor(k) in s.sent[|before.sent|..]
  }

  /** The cancel functions those jobs had have been called, and no others. */
  ghost predicate CalledFor(before: Registry.State, s: Registry.State, done: set<string>) {
    && before.called <= s.called && |s.called| == |before.called| + |CancelKeys(done) * before.cancels.Keys|
    && forall k :: k in done && CancelKeyOf(k) in before.cancels ==>
         before.cancels[CancelKeyOf(k)] in s.called[|before.called|..]
  }

  lemma NothingCalled(s: Registry.State)
    ensures CalledFor(s, s, {})
  {
    assert CancelKeys({}) == {};
    assert {} * s.cancels.Keys == {};
  }

  lemma CallOne(before: Registry.State, s: Registry.State, done: set<string>, key: string, clock: string -> int)
    requires CalledFor(before, s, done) && Swept(before, s, done) && key in before.timers && key !in done
    requires Registry.KeysAreFormatted(before) && done <= Overdue(before.timers, clock)
    ensures CalledFor(before, Registry.Visit(s, key, clock(key)),
                      if key in Overdue(before.timers, clock) then done + {key} else done)
  {
    hide Registry.Visit, Overdue, CancelKeyOf, Registry.KeysAreFormatted, CancelKeys, Swept;
    var r := Registry.Visit(s, key, clock(key));
    SweptLeaves(before, s, done, key);
    VisitCalls(s, key, before.timers, clock);
    if key in Overdue(before.timers, clock) {
      var ck := CancelKeyOf(key);
      CancelKeysSnoc(before, done, key, clock);
      KeysMet(CancelKeys(done), ck, before.cancels.Keys);
      var more := if ck in before.cancels then [before.cancels[ck]] else [];
      CalledMore(before.called, s.called, r.called, more);
      assert |more| == if ck in before.cancels then 1 else 0;
      assert |CancelKeys(done + {key}) * before.cancels.Keys| == |CancelKeys(done) * before.cancels.Keys| + |more|;
      forall k | k in done + {key} && CancelKeyOf(k) in before.cancels
        ensures before.cancels[CancelKeyOf(k)] in r.called[|before.called|..]
      {
        if k == key { assert more[0] in more; }
      }
    } else {
      assert s.called + [] == s.called;
    }
  }

  lemma SweptLeaves(before: Registry.State, s: Registry.State, done: set<string>, key: string)
    requires Swept(before, s, done) && key in before.timers && key !in done
    ensures key in s.timers && s.timers[key] == before.timers[key]
    ensures CancelKeyOf(key) !in CancelKeys(done) ==>
              && (CancelKeyOf(key) in s.cancels <==> CancelKeyOf(key) in before.cancels)
              && (CancelKeyOf(key) in s.cancels ==> s.cancels[CancelKeyOf(key)] == before.cancels[CancelKeyOf(key)])
  {
    hide CancelKeys, CancelKeyOf, StopFor;
  }

  lemma CalledMore(a: seq<nat>, b: seq<nat>, c: seq<nat>, more: seq<nat>)
    requires a <= b && c == b + more
    ensures a <= c && c[|a|..] == b[|a|..] + more
  {
  }

  lemma VisitCalls(s: Registry.State, key: string, timers: map<string, int>, clock: string -> int)
    requires key in timers && key in s.timers && s.timers[key] == timers[key]
    ensures Registry.Visit(s, key, clock(key)).called
            == s.called + if key in Overdue(timers, clock) && CancelKeyOf(key) in s.cancels
                          then [s.cancels[CancelKeyOf(key)]] else []
  {
    hide GetJobNameAndIDFromFormatString, CancelKey, Registry.TimedOut;
  }

  lemma KeysMet(a: set<string>, x: string, b: set<string>)
    requires x !in a
    ensures |(a + {x}) * b| == |a * b| + if x in b then 1 else 0
  {
    if x in b {
      assert (a + {x}) * b == a * b + {x};
    } else {
      assert (a + {x}) * b == a * b;
    }
  }

  lemma CancelKeysSnoc(s: Registry.State, done: set<string>, key: string, clock: string -> int)
    requires Registry.KeysAreFormatted(s) && done <= Overdue(s.timers, clock)
    requires key in Overdue(s.timers, clock) && key !in done
    ensures CancelKeyOf(key) !in CancelKeys(done) && CancelKeys(done + {key}) == CancelKeys(done) + {CancelKeyOf(key)}
  {
    hide CancelKeyOf, Registry.KeysAreFormatted, Registry.TimedOut, GetJobNameAndIDFromFormatString;
    forall k | k in done ensures CancelKeyOf(k) != CancelKeyOf(key) {
      if CancelKeyOf(k) == CancelKeyOf(key) { SameJobSameKey(s, k, key); }
    }
  }

  lemma NothingSwept(s: Registry.State, clock: string -> int)
    ensures Swept(s, s, {})
    ensures Overdue(s.timers, clock) - s.timers.Keys == {}
  {
    assert s.timers - {} == s.timers;
    assert s.cancels - CancelKeys({}) == s.cancels;
  }

  lemma OverdueAreTimers(timers: map<string, int>, clock: string -> int)
    ensures Overdue(timers, clock) <= timers.Keys
  {
  }

  lemma SweepOne(before: Registry.State, s: Registry.State, done: set<string>, key: string, clock: string -> int)
    requires Swept(before, s, done) && key in before.timers && key !in done
    ensures key in s.timers
    ensures Swept(before, Registry.Visit(s, key, clock(key)),
                  if key in Overdue(before.timers, clock) then done + {key} else done)
  {
    hide GetJobNameAndIDFromFormatString, CancelKey, Registry.TimedOut;
    if key in Overdue(before.timers, clock) {
      var r := Registry.Visit(s, key, clock(key));
      assert r.sent == s.sent + [StopFor(key)];
      assert r.sent[|before.sent|..] == s.sent[|before.sent|..] + [StopFor(key)];
      assert CancelKeys(done + {key}) == CancelKeys(done) + {CancelKeyOf(key)};
      assert r.timers == before.timers - (done + {key});
      assert r.cancels == before.cancels - CancelKeys(done + {key});
    }
  }

  /** A timer key names one job, and a job has one timer key. */
  lemma SameJobSameKey(s: Registry.State, k: string, l: string)
    requires Registry.KeysAreFormatted(s) && k in s.timers && l in s.timers
    requires GetJobNameAndIDFromFormatString(k).Some? && GetJobNameAndIDFromFormatString(l).Some?
    requires CancelKeyOf(k) == CancelKeyOf(l)
    ensures k == l
  {
    hide FormatJobToString, GetJobNameAndIDFromFormatString, CancelKey;
    assert Registry.IsFormatted(k) && Registry.IsFormatted(l);
    var m: string, i: Int64 :| k == FormatJobToString(m, i);
    var n: string, j: Int64 :| l == FormatJobToString(n, j);
    DecodeFormatted(m, i);
    DecodeFormatted(n, j);
    CancelKeyIsInjective(m, i, n, j);
  }

  /** What a sweep means for each job. */
  lemma SweptJobs(before: Registry.State, s: Registry.State, clock: string -> int)
    requires Swept(before, s, Overdue(before.timers, clock)) && CalledFor(before, s, Overdue(before.timers, clock))
    requires Registry.KeysAreFormatted(before)
    ensures forall n: string, i: Int64 ::
              var key := FormatJobToString(n, i);
              var due := key in before.timers && '(' !in n && clock(key) - before.timers[key] > 1_800_000_000_000;
              && (key in s.timers <==> key in before.timers && !due)
              && (CancelKey(n, i) in s.cancels <==> CancelKey(n, i) in before.cancels && !due)
              && (due ==> StatusMessage(n, i, Stop) in s.sent[|before.sent|..])
              && (due && CancelKey(n, i) in before.cancels ==>
                    before.cancels[CancelKey(n, i)] in s.called[|before.called|..])
  {
    hide FormatJobToString, GetJobNameAndIDFromFormatString, CancelKey;
    forall n: string, i: Int64
      ensures var key := FormatJobToString(n, i);
              var due := key in before.timers && '(' !in n && clock(key) - before.timers[key] > 1_800_000_000_000;
              && (key in s.timers <==> key in before.timers && !due)
              && (CancelKey(n, i) in s.cancels <==> CancelKey(n, i) in before.cancels && !due)
              && (due ==> StatusMessage(n, i, Stop) in s.sent[|before.sent|..])
              && (due && CancelKey(n, i) in before.cancels ==>
                    before.cancels[CancelKey(n, i)] in s.called[|before.called|..])
    {
      SweptJob(before, clock, n, i);
    }
  }

  lemma SweptJob(before: Registry.State, clock: string -> int, n: string, i: Int64)
    requires Registry.KeysAreFormatted(before)
    ensures var key, ks := FormatJobToString(n, i), Overdue(before.timers, clock);
            && (key in ks <==> && key in before.timers && '(' !in n
                               && clock(key) - before.timers[key] > 1_800_000_000_000)
            && (CancelKey(n, i) in CancelKeys(ks) <==> key in ks)
            && (key in ks ==> CancelKeyOf(key) == CancelKey(n, i) && StopFor(key) == StatusMessage(n, i, Stop))
  {
    hide FormatJobToString, GetJobNameAndIDFromFormatString, CancelKey;
    var key, ks := FormatJobToString(n, i), Overdue(before.timers, clock);
    DecodeFormatted(n, i);
    forall k | k in ks && CancelKeyOf(k) == CancelKey(n, i) ensures k == key {
      assert Registry.IsFormatted(k);
      var m: string, j: Int64 :| k == FormatJobToString(m, j);
      DecodeFormatted(m, j);
      CancelKeyIsInjective(m, j, n, i);
    }
  }

  ghost predicate Sortable(job: map<string, Stage>) {
    Scheduling.AllNeedsDefined(job) && Scheduling.Acyclic(job)
  }

  /** The timer keys a sweep acts on. */
  ghost function Overdue(timers: map<string, int>, clock: string -> int): set<string> {
    set k | k in timers && Registry.TimedOut(timers[k], clock(k)) && GetJobNameAndIDFromFormatString(k).Some?
  }

  ghost function CancelKeyOf(k: string): string {
    match GetJobNameAndIDFromFormatString(k)
    case None => ""
    case Some((name, id)) => CancelKey(name, id)
  }

  ghost function CancelKeys(ks: set<string>): set<string> {
    set k | k in ks :: CancelKeyOf(k)
  }

  ghost function StopFor(k: string): StatusMessage {
    match GetJobNameAndIDFromFormatString(k)
    case None => StatusMessage("", 0, Stop)
    case Some((name, id)) => StatusMessage(name, id, Stop)
  }

  /** A job as its file describes it; the name inside need not be the name of the file. */
  datatype Job = Job(name: string, stages: map<string, Stage>)

  datatype QueueMessage =
    | StartJob(jobName: string, jobId: Int64)
    | StopJob(jobName: string, jobId: Int64)

  /** One message of `handleJobQueue`: `job` is what the saved job file reads back as, if it could be
      saved and read. A run that returns an error is reported a second time. */
  method HandleQueueMessage(executor: Executor, msg: QueueMessage, job: Option<Job>, token: nat,
                            mkdirFailed: bool, o: Oracle, clock: (nat, nat) -> int)
    returns (ghost plan: seq<StageDetail>)
    requires executor.Valid()
    modifies executor
    ensures executor.Valid()
    ensures msg.StopJob? ==>
              && executor.State() == Registry.Cancel(old(executor.State()), msg.jobName, msg.jobId)
              && executor.history == old(executor.history) + [Registry.CancelJob(msg.jobName, msg.jobId)]
    ensures msg.StartJob? && job.None? ==>
              executor.State() == old(executor.State()) && executor.history == old(executor.history)
    ensures msg.StartJob? && job.Some? && !Sortable(job.value.stages) ==>
              && executor.statusChan == old(executor.statusChan) + [StatusMessage(job.value.name, msg.jobId, NotRun),
                                                                    StatusMessage(msg.jobName, msg.jobId, Fail)]
              && executor.history == old(executor.history) + [Registry.Reject(job.value.name, msg.jobId)]
                                     + [Registry.Report(msg.jobName, msg.jobId, Fail)]
    ensures msg.StartJob? && job.Some? && Sortable(job.value.stages) ==>
              && Scheduling.IsSchedule(job.value.stages, plan)
              && executor.statusChan
                 == old(executor.statusChan) + FinalMessages(msg, job.value.name, plan, mkdirFailed, o)
              && executor.history
                 == old(executor.history)
                    + RunHistory(msg, job.value.name, plan, Run(plan, mkdirFailed, o), token, clock)
  {
    hide Run, Sortable, Scheduling.IsSchedule, RunProofs.Stillborn, RunProofs.FatalInPlan, RunTheorems.Decisive;
    hide Registry.Run, Registry.Apply, Registry.Cancel, Timers, Executor.Valid;
    plan := [];
    if msg.StopJob? {
      executor.Cancel(msg.jobName, msg.jobId);
      return;
    }
    if job.None? {
      return;
    }
    var err;
    ghost var r;
    err, plan, r := executor.Execute(job.value, msg.jobId, token, mkdirFailed, o, clock);
    if err {
      executor.ReportFailure(msg.jobName, msg.jobId);
    }
    if Sortable(job.value.stages) {
      RunTheorems.ScheduleIsUnstarted(job.value.stages, plan);
      RunTheorems.FinalStatus(plan, mkdirFailed, o);
    }
  }

  /** The operations of one run and of the report that follows a failed one. */
  ghost function RunHistory(msg: QueueMessage, name: string, plan: seq<StageDetail>, r: RunState, token: nat,
                            clock: (nat, nat) -> int): seq<Registry.Op> {
    RunOps(plan, r, name, msg.jobId, token, clock)
    + if r.err then [Registry.Report(msg.jobName, msg.jobId, Fail)] else []
  }

  /** Two FAIL messages for a run that failed, one under each name; one SUCCESS for any other. */
  ghost function FinalMessages(msg: QueueMessage, name: string, plan: seq<StageDetail>, mkdirFailed: bool, o: Oracle)
    : seq<StatusMessage>
  {
    if RunProofs.Stillborn(plan, mkdirFailed) || RunProofs.FatalInPlan(plan, RunTheorems.Decisive(plan, o)) then
      [StatusMessage(name, msg.jobId, Fail), StatusMessage(msg.jobName, msg.jobId, Fail)]
    else
      [StatusMessage(name, msg.jobId, Success)]
  }
}
