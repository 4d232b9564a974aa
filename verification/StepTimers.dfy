/** The timer a run sets for each step it performs. */
module StepTimers {
  import opened Text
  import opened Model
  import opened RunSpec
  import Registry

  /** One timer operation for each step performed, at that step's time, in the order of the trace. */
  ghost function Timers(t: seq<Event>, name: string, id: Int64, clock: (nat, nat) -> int): seq<Registry.Op> {
    if t == [] then []
    else
      Timers(t[..|t| - 1], name, id, clock)
      + match t[|t| - 1]
        case StepLogged(i, j) => [Registry.SetTimer(name, id, clock(i, j))]
        case _ => []
  }

  lemma TimersSnoc(t: seq<Event>, e: Event, name: string, id: Int64, clock: (nat, nat) -> int)
    ensures Timers(t + [e], name, id, clock)
            == Timers(t, name, id, clock)
               + if e.StepLogged? then [Registry.SetTimer(name, id, clock(e.stage, e.step))] else []
  {
    assert (t + [e])[..|t|] == t;
  }

  lemma ActTimers(st: RunState, c: Call, hasHandler: bool, out: Outcome, name: string, id: Int64,
                  clock: (nat, nat) -> int)
    ensures Timers(Act(st, c, hasHandler, out).trace, name, id, clock) == Timers(st.trace, name, id, clock)
  {
    hide Timers;
    TimersSnoc(st.trace, Pre(c, false), name, id, clock);
    TimersSnoc(st.trace, Pre(c, true), name, id, clock);
    TimersSnoc(st.trace + [Pre(c, true)], Hook(c, out.Done?), name, id, clock);
  }

  lemma {:induction false} DrainTimers(st: RunState, name: string, id: Int64, clock: (nat, nat) -> int)
    ensures Timers(Drain(st).trace, name, id, clock) == Timers(st.trace, name, id, clock)
    decreases |st.stack|
  {
    hide Timers;
    if st.stack != [] {
      var n := |st.stack| - 1;
      TimersSnoc(st.trace, Post(st.stack[n]), name, id, clock);
      DrainTimers(Emit(st, Post(st.stack[n])).(stack := st.stack[..n]), name, id, clock);
    }
  }

  lemma StartContainerTimers(st: RunState, step: Step, i: nat, j: nat, o: Oracle,
                             name: string, id: Int64, clock: (nat, nat) -> int)
    ensures Timers(StartContainer(Emit(st, StepStart(i, j)), step, i, j, o).trace, name, id, clock)
            == Timers(st.trace, name, id, clock)
  {
    hide Timers, Act;
    var c := Call(i, j, ContainerStart);
    TimersSnoc(st.trace, StepStart(i, j), name, id, clock);
    ActTimers(Emit(st, StepStart(i, j)), c, true, o(c), name, id, clock);
  }

  /** A step that is performed sets one timer. */
  lemma FinishStepTimers(st: RunState, step: Step, i: nat, j: nat, o: Oracle, name: string, id: Int64,
                         clock: (nat, nat) -> int)
    ensures Timers(FinishStep(st, step, i, j, o).trace, name, id, clock)
            == Timers(st.trace, name, id, clock) + [Registry.SetTimer(name, id, clock(i, j))]
  {
    hide Timers, Act, Drain, SetStep, HasAction;
    var c := Call(i, j, StepAction);
    var s0 := st.(stages := SetStep(st.stages, i, j, Running));
    var s := Emit(Save(s0), StepLogged(i, j));
    SaveTimers(s0, name, id, clock);
    TimersSnoc(Save(s0).trace, StepLogged(i, j), name, id, clock);
    ActTimers(s, c, HasAction(step), o(c), name, id, clock);
    DrainTimers(Act(s, c, HasAction(step), o(c)), name, id, clock);
    var b := Drain(Act(s, c, HasAction(step), o(c)));
    SaveTimers(b.(stages := SetStep(b.stages, i, j, if b.err then Fail else Success)), name, id, clock);
  }

  lemma SaveTimers(st: RunState, name: string, id: Int64, clock: (nat, nat) -> int)
    ensures Timers(Save(st).trace, name, id, clock) == Timers(st.trace, name, id, clock)
  {
    hide Timers;
    TimersSnoc(st.trace, Saved(Snapshot(st.status, st.stages)), name, id, clock);
  }

  lemma EndStageTimers(st: RunState, i: nat, name: string, id: Int64, clock: (nat, nat) -> int)
    ensures Timers(EndStage(st, i).trace, name, id, clock) == Timers(st.trace, name, id, clock)
  {
    hide Timers, SetStage;
    SaveTimers(st.(stages := SetStage(st.stages, i, if st.err then Fail else Success)), name, id, clock);
  }

  lemma BeginStageTimers(st: RunState, i: nat, name: string, id: Int64, clock: (nat, nat) -> int)
    ensures Timers(BeginStage(st, i).trace, name, id, clock) == Timers(st.trace, name, id, clock)
  {
    hide Timers, SetStage;
    TimersSnoc(st.trace, StageStart(i, st.stages), name, id, clock);
    var a := Emit(st, StageStart(i, st.stages));
    SaveTimers(a.(stages := SetStage(a.stages, i, Running)), name, id, clock);
  }

  lemma ConcludeTimers(st: RunState, name: string, id: Int64, clock: (nat, nat) -> int)
    ensures Timers(Conclude(st).trace, name, id, clock) == Timers(st.trace, name, id, clock)
  {
    hide Timers;
    SaveTimers(st.(status := if st.err then Fail else Success), name, id, clock);
  }

  lemma NoTimers(name: string, id: Int64, clock: (nat, nat) -> int)
    ensures Timers([], name, id, clock) == []
  {
  }
}
