# aline-engine, modelled and proved in Dafny

`aline-engine` is a pipeline engine. A master keeps a rotating list of workers and sends each job to
one of them; the worker sorts the job's stages by their needs, runs every step's `Pre`, `Hook` and
`Post`, and writes a log that is parsed back stage by stage. This project models those machines and
proves what they keep over whole runs.

Verify it with `dafny verify dfyconfig.toml`.

## How it is organised

| module | models |
|---|---|
| `Scheduling` | `Job.StageSort` and the dependency graphs it can and cannot sort |
| `RunSpec`, `RunProofs`, `Cleanup`, `StageRecords`, `RunTheorems` | one run of a job as a function of the plan and of every action's outcome; what all runs keep |
| `RunOutright`, `RunSaves` | what runs and how it ends, read off the plan and the outcomes alone; what is on file meanwhile |
| `RunMarkers`, `RunLog` | the markers a run writes, and what parsing its finished log shows of the run |
| `Registry`, `StepTimers` | the cancel map and the step timers as a state machine over the operations of all jobs |
| `Timeouts` | which run is registered and which timer is overdue, read off the history of those operations |
| `Stacks`, `Execution` | the classes `Stack`, `Executor`, and the queue loop, each method proved against the functions above |
| `Dispatch`, `Rotation` | the class `GrpcDispatcher`; its key list and cursor as a queue, and whole histories of it |
| `Failover` | the send loop, the error handler and `dispatchJob`, joined by two channels |
| `LogText`, `LogWriter`, `LogParser` | lines and markers, the class `Output`, and the two parsers |
| `LogRoundTrip`, `LogTheorems`, `StructuredLog`, `Tailing` | writing then parsing; following a log that grows |
| `LogOutright`, `StageTimes`, `JobTimes` | the log letter by letter; the times of stages and of the job |
| `Paging`, `Findings`, `KeyValues`, `JobKeys` | paging arithmetic, grouping of scan findings, `key=value` lists, job and node keys |
| `Model`, `Text`, `Results`, `Arithmetic`, `Sequences` | shared entities, the parts of Go's `strings` and `strconv` that are used, option and result types, division, concatenation |

What stands for what:

- **Go maps.** Ranging over a map visits the keys in an order the program does not choose: every such
  loop takes an arbitrary remaining key.
- **Actions.** A shell command, a container start, a git checkout and so on is an oracle outcome:
  `Pre` fails, `Hook` fails, or both succeed. An outcome is given for every call a plan could make, so a
  theorem for all oracles covers every course a run can take.
- **Concurrency.** Each method is one atomic step. `Registry` and `Rotation` prove their results for
  every sequence of such steps, so runs, cancels and timer sweeps of different jobs may interleave
  between them. `Executor.Valid` says that the maps are what the operations so far make of them, which
  is how the results about sequences reach the class.
- **Times** are parameters: a number where they are compared, and in a log an opaque stamp that starts
  with a digit and contains no newline. Parsing a log finds the texts that are parsed as times.
- **Texts** are valid UTF-8, and their characters code points. Every separator the code looks for is ASCII, so it
  splits the bytes of a text where it splits its code points; spaces are trimmed by code points in the code too.
- **Integers.** Job ids are 64-bit; lengths and counters are unbounded.
- **Names and payloads** in a log are any text: they may contain newlines, carriage returns and markers.
- **The log of a run.** The runner's trace records where the loops call `NewStage` and `NewStep`, and where the `Hook`
  of a `hamster-artifactory` step calls `NewStage` itself; no other action does. `RunLog` takes any log with those
  markers in that order, whatever the actions write between them.
- **Errors** are `Option` and `Result` values, or a Boolean where only the presence of an error matters.
- **Channels** are sequences that never block; `statusChan` holds everything sent so far.

## Where the code does not do what its comments or names promise

The model follows the code. Each point names in parentheses the theorem that proves it, or the contract it shows in.

- A failing step that is not the last of its stage is recorded FAIL, but the gated call of the next
  step overwrites `err`, so later steps and stages are recorded SUCCESS although nothing of them runs,
  and the job ends SUCCESS (`FinalStatus`, `StepsAreRecorded`, `JobSucceedsOverFailedStep`).
- `action/hander.go:15` says `Post` runs whatever the outcome. It does not for a container whose own
  `Hook` failed, which leaves the step loop before the stack is drained
  (`EachPreparedActionIsPostedOnce`, `CleanupIsComplete`).
- A step whose `uses` is unknown but which has a container starts that container a second time as its
  action (`UnknownUsesStartsContainerTwice`).
- A step that saves artifacts begins a stage of its own, called `artifactory`, as the first thing its `Hook` does
  (`action/action_artifactory.go:80`), so the steps after it are shown in that stage and not in their own
  (`ArtifactorySplitsStage`). The log shows the stages of the run exactly when no such step got past its `Pre`
  and no marker is forged or altered (`LogShowsTheRun`); what it shows otherwise, also of a plan with a stage
  that is itself called `artifactory`, is in `WhatTheLogShows`.
- If the working directory cannot be created, that error fails the run only when the first stage has
  no step, or there is no stage (`FinalStatus`).
- A finished run deletes the cancel entry under the bare job name, not under `name/id`: its own entry
  stays and the job is still reported RUNNING (`EndKeepsOwnRegistration`), and a job named `a/1` takes
  away the entry of job 1 of `a` (`EndDropsOther`, `SlashNameUnregistersRunningJob`). A job's entry is that of its
  latest run not cancelled since, unless a job named like its key finished after that run began
  (`CancelMapUnlessDropped`); as long as no finished job has a `/` in its name that never happens
  (`SlashFreeNamesAreSafe`).
- A timer key whose job name contains a `(` never decodes, so that job never times out and its timer is
  visited again and again until the run ends (`VisitDecodes`).
- Unregistering a node drops the slot before the cursor, not the node's own; list and map then agree
  exactly when the node was the one dispatched last (`UnregisterAgreesIffAtBack`), and otherwise some
  other node can never be reached again (`UnregisterElsewhereStrandsANode`).
- The send loop retries type 4, which is CANCEL; EXECUTE is 3. A lost EXECUTE is dropped, and a lost
  CANCEL starts the job again (`OnlyCancelIsRetried`, `HandleError`). The failover results take the
  retriable type as a parameter.
- `output/output.go:328` keeps a list to preserve the order of stages, but the stages come out in map
  order (`ParseLogLines` promises a multiset).
- Only the first line of a payload gets a time stamp, so a payload of several lines, or a name of several
  lines, can forge markers (`MultiLinePayloadForgesStage`), and a name that ends in a carriage return loses it when
  the file is split into lines (`CarriageReturnIsLost`). The log gives back the stages begun exactly when neither
  happens to them, and likewise the steps of a stage and the lines of a step (`RoundTrip`, `ReadsBackIff`).
- Any severity spelled `Low` is counted as informational: the code tests for `LOW`
  (`LowIsInformational`).
- With a page size larger than the list, every page number returns the whole list
  (`PagePastTheEnd`).

## Model

| member | source | states |
|---|---|---|
| Scheduling.StageSort | model/job.go:79-112 | Whatever order each pass visits the map in: succeeds iff every need names a stage and no cycle exists; a success lists every stage once, NOTRUN, after all its needs; an error returns exactly the stages that can never be placed, at least one. Terminates. |
| Scheduling.AllContained | model/job.go:91-97 | True iff every need is already placed. |
| Scheduling.PlaceableIsFixedPoint | model/job.go:90-103 | The stages in every closed set form a closed set whose members have their needs inside it: the least fixed point of "all my needs are placed". |
| Scheduling.ResidueIsGreatestBlockedSet | model/job.go:105-107 | The residue is the largest set in which each stage waits for a member of the set or for an undefined stage. |
| Scheduling.ResolvableIffAcyclicAndDefined | model/job.go:88-111 | The residue is empty iff all needs are defined and the needs relation has no cycle. |
| Scheduling.WalkFindsCycle | model/job.go:88-111 | Following needs inside a blocked set of defined stages produces a cycle. |
| Scheduling.PlaceOne | model/job.go:98-102 | Placing a stage whose needs are placed keeps the partition into placed and remaining stages, and the list a schedule. |
| Scheduling.Stuck | model/job.go:105-107 | A pass that places nothing has found the least fixed point: what remains is the residue, and it is not empty. |
| Stacks.Stack.Push | utils/stack.go:13-15 | The value becomes the top; the rest is unchanged. |
| Stacks.Stack.Pop | utils/stack.go:18-27 | Takes off and returns the top; an empty stack is reported and left alone. |
| Stacks.Stack.IsEmpty | utils/stack.go:30-32 | True iff nothing is on the stack. |
| RunTheorems.ActionsRunUpToFirstFailure | executor/executor.go:105-159 | The `Pre` and `Hook` calls of a run are those of the plan, in order, up to and including the first call that fails; none at all if the missing working directory ends the run. |
| RunTheorems.UnknownUsesStartsContainerTwice | executor/executor.go:198-265 | In every run of any plan that gets as far as the action of a step with a container and an unknown `uses`, that container is started twice in a row: the two calls are neighbours among those of the run, each found once. |
| RunTheorems.NothingStartsAfterFailure | executor/executor.go:119-131 | After any `Pre` or `Hook` returns an error, no later `Pre` or `Hook` runs. |
| RunTheorems.CleanupIsComplete | executor/executor.go:199-271 | Replaying any run's trace, every `Post` closes the call opened last, every stage and step begins with nothing open, and at the end nothing is open but a container whose own `Hook` failed. |
| RunTheorems.StepsBeginClean | executor/executor.go:268-271 | When a stage or step begins, every call opened so far has had exactly one `Post`. |
| Cleanup.OpenedIsPostedPlusOpen | utils/stack.go:13-27 | Conservation: in a trace that obeys the stack rules, the calls opened are those posted plus those still open, as multisets. |
| RunTheorems.EachPreparedActionIsPostedOnce | executor/executor.go:126-271 | A call gets exactly one `Post` iff its `Pre` succeeded and it is not a container whose own `Hook` failed; any other gets none, and none does if the missing working directory ends the run. |
| RunTheorems.FinalStatus | executor/executor.go:283-312 | The run returns an error, and the job is FAIL, iff the first failing call was a container start or the last step of its stage, or the working directory error was never overwritten; iff some stage is recorded FAIL. |
| RunTheorems.StepsAreRecorded | executor/executor.go:206-276 | The final record of every step: FAIL for the first step whose action failed, SUCCESS for every other step the loops reach, unchanged for those they do not, and for all if the missing working directory ends the run. |
| RunTheorems.JobSucceedsOverFailedStep | executor/executor.go:119-121 | When the first failing action is not the last of its stage, its step is recorded FAIL and yet no stage is, and the job ends SUCCESS. |
| RunTheorems.RecordsInOrder | executor/executor.go:187-297 | Every saved job detail reads SUCCESS*, at most one RUNNING or FAIL, NOTRUN*; every stage starts with all earlier ones succeeded; the last thing saved is the final status and record. |
| RunTheorems.StagesStartAfterTheirNeeds | executor/executor.go:187-195 | For every sorted job: a stage starts only when each stage it needs is recorded SUCCESS, and in every saved detail a stage past NOTRUN has all its needs SUCCESS. |
| RunTheorems.AtMostOneRunning | job/job.go:114-119 | Two RUNNING stages of a saved detail are the same stage. |
| RunTheorems.NoStageLeftRunning | executor/executor.go:283-310 | When a run has ended no stage is RUNNING, nor in the detail saved last. |
| RunOutright.CallsOfPlan | executor/executor.go:199-263 | A plan calls the action of a step iff `uses` is one of 24 names, which are listed, or contains a '/', or the step has a container; and starts a container iff the step names one. |
| RunOutright.WhoseAction | executor/executor.go:199-263 | Such a `uses` runs its own action, container or not; only any other one falls back on the container. |
| RunOutright.CallsInOrder | executor/executor.go:187-265 | The calls of a plan come stage by stage, step by step, a container before its step's action. |
| RunOutright.WhatRuns | executor/executor.go:105-271 | In any run, how often the `Pre`, `Hook` and `Post` of each call run, with which result: once for a call of the plan before which none fails, as far as its own outcome lets it, and not at all for any other. |
| RunOutright.WhatRunsWhenNothingFails | executor/executor.go:105-271 | When nothing fails, `Pre` and `Hook` run of exactly the calls of the plan. |
| RunOutright.HowItEnds | executor/executor.go:283-312 | The job is FAIL iff the working directory is missing and the first stage has no step, or some call fails, none before it does, and it starts a container or is the last of its stage. |
| RunOutright.HowStepsEnd | executor/executor.go:206-276 | The final record of every step in the same terms. |
| RunSaves.WhatIsSaved | executor/executor.go:190-310 | In every run: a stage is saved as RUNNING when it starts and as ended before the next one starts; a step is saved as RUNNING right before it is logged and its action runs, and the next detail saved has its result; two details are saved per stage and step begun, and one at the end, and they are those of the trace. |
| RunSaves.RunningWhileActing | executor/executor.go:206-208 | When the `Pre` of an action runs, the detail saved last shows its job, stage and step RUNNING. |
| RunLog.LogShowsTheRun | executor/executor.go:194-264 | Whatever the actions write between the markers and whatever the names are, parsing the finished log of a run of any plan with distinct stage names (every sorted one), added to any earlier log, gives exactly the stages it started, in plan order, iff no artifact step got past its `Pre`, the stage names are on one line without a carriage return at the end, and no later line of a payload or step name is a stage marker; and each of them shows exactly the steps performed as well iff the same holds of the steps. |
| RunLog.WhatTheLogShows | executor/executor.go:194-264 | What the log of any such run shows, artifact steps or not: the stages started with an `artifactory` after each step that begins it, iff no marker of a stage is forged or altered; then each stage its steps up to the first that begins another one, and `artifactory` the steps since it was begun last, iff the same holds of its steps. |
| RunLog.ArtifactorySplitsStage | action/action_artifactory.go:79-80 | A plan of one stage whose steps save artifacts and check, all actions done and every marker intact: the log shows two stages, and the check in the wrong one. |
| RunMarkers.MarksShow | executor/executor.go:194-264 | The markers written by any run are those of the stages and steps these functions of the plan and the deciding failure list. |
| RunMarkers.NoneOpensIff | action/action_artifactory.go:79-80 | No started stage has a performed step that begins a stage iff no call of the run, up to its first failure, is an artifact step whose `Pre` succeeds. |
| RunMarkers.ShownAreStartedIff | action/action_artifactory.go:79-80 | The stages shown are at least as many as those started, and are the same iff no step begins one. |
| Execution.JobRun.ExecuteAction | executor/executor.go:105-159 | Does to status, stack and trace what `RunSpec.Act` says: gated by status, skipped without handler, pushed between `Pre` and `Hook`. |
| Execution.JobRun.PostAll | executor/executor.go:268-271 | Empties the stack, calling `Post` from the top down. |
| Execution.JobRun.PerformStep | executor/executor.go:206-280 | One step after its container: marked RUNNING and saved, action, cleanup, result recorded and saved. |
| Execution.Executor.RunStepLoop | executor/executor.go:197-281 | The loop equals `RunSpec.RunSteps`, and sets exactly one timer for this job per step performed, at that step's time. |
| Execution.Executor.RunStageLoop | executor/executor.go:187-297 | The loop equals `RunSpec.RunStages`, with the timers of all performed steps and no other job's timer touched; a stage that ends with an error calls this run's own cancel function, once. |
| Execution.Executor.CallCancel | executor/executor.go:293-296 | Calls the run's own function, whatever the cancel map holds. |
| Execution.Executor.Begin | executor/executor.go:96-97 | Registers the run's cancel function under `name/id` and changes nothing else. |
| Execution.Executor.RunSorted | executor/executor.go:96-312 | The run of a job that could be sorted: equals `RunSpec.Run`, and the operations on the maps are its registration, one timer per step performed, its own cancellation if a stage failed, and its end, in that order. |
| Execution.Executor.Execute | executor/executor.go:39-313 | An unsortable job: error, one NOTRUN message, nothing registered. Any other: runs a schedule of its stages as `RunSpec.Run`, returns its error, registers under `name/id`, cancels itself iff a stage failed, sends exactly one message with the final status, drops its timer; the operations it performed are listed in order. |
| Execution.Executor.Finish | executor/executor.go:55-61 | Every run that was sorted ends by dropping the entry under its bare name, sending its final status once and dropping its timer. |
| Execution.Executor.Cancel | executor/executor.go:316-327 | Calls exactly the function the history of operations assigns to that job, if any, removes it, and sends STOP. |
| Execution.Executor.GetJobStatus | executor/executor.go:329-335 | RUNNING iff the history still assigns the job a cancel function. |
| Execution.Executor.VisitTimer | executor/executor.go:341-353 | A key that decodes to a job and was set more than thirty minutes ago is removed, with the job's cancel entry, and STOP is sent; any other changes nothing. |
| Execution.Executor.SweepTimers | executor/executor.go:338-358 | In whatever order the timers are visited: of each job, the timer and the cancel entry go iff that timer was set more than thirty minutes ago and the name has no '('; then its cancel function, if it has one, is called, and STOP is sent; one STOP per timer removed, one call per entry removed. |
| Execution.HandleQueueMessage | executor/client.go:38-83 | A stop cancels, and is the one operation performed; an unreadable job changes nothing and performs none; a run that fails produces its own FAIL message and one more, any other exactly one SUCCESS; an unsortable job NOTRUN then FAIL. In each case the operations performed on the maps are listed in order. |
| Registry.MapsFollowHistory | executor/executor.go:97-327 | After any sequence of operations of all jobs, both maps hold for each job what that job's own history says, for every name. |
| Registry.CancelReachesItsJob | executor/executor.go:316-327 | Cancelling a job calls the function its history assigns to it and no other. |
| Registry.SweepCancelsOnlyOverdue | executor/executor.go:338-358 | A visit cancels the job whose key it is iff that job's current step is overdue and its name has no '('; otherwise it changes nothing. |
| Registry.TimerKeysAreFormatted | executor/executor.go:212 | Every timer key ever stored is some job's formatted key. |
| Registry.VisitDecodes | executor/executor.go:343 | An overdue key belongs to one job; the visit cancels that job, or, if its name has a '(', leaves everything in place. |
| Registry.EndKeepsOwnRegistration | executor/executor.go:300 | A finishing run changes neither its own registration nor its entry in the cancel map. |
| Registry.EndDropsOther | executor/executor.go:300 | A finishing run removes a registered job's entry from the cancel map iff its name is that job's `name/id`. |
| Registry.RegisteredUnlessDropped | executor/executor.go:300 | For every history: a job is registered with its latest run not cancelled or timed out since, iff no job named like its key finished while that run was uncancelled, with nothing happening to the job after. |
| Registry.CancelMapUnlessDropped | executor/executor.go:300 | The same of the cancel map itself. |
| Registry.SlashFreeNamesAreSafe | executor/executor.go:300 | If no finished job has a '/' in its name, each job's cancel function is that of its latest run not cancelled or timed out since. |
| Registry.SlashNameUnregistersRunningJob | executor/executor.go:300 | A concrete history in which job `a/1` finishing makes running job 1 of `a` impossible to cancel. |
| Timeouts.TimerStands | executor/executor.go:210-212 | The map's timer of a job is the last one set that still stands: since then the job has neither set another, nor ended, nor been visited more than thirty minutes later with a name that decodes. |
| Timeouts.RegisteredStands | executor/executor.go:97-327 | The map's cancel function of a job is that of its last run, if since then it was neither cancelled, nor visited with an overdue timer, nor did a job named like its key end. |
| Timeouts.VisitCancelsIff | executor/executor.go:338-374 | After any history, a visit of a job's timer cancels it iff the timer that stands was set more than 1,800,000,000,000 ns before and the name has no '('; what is called, sent and removed then, and that nothing changes otherwise. |
| Timeouts.CancelCallsLatestRun | executor/executor.go:316-327 | Cancelling a job calls the function of the run still registered, if there is one, drops its entry and sends STOP. |
| StepTimers.FinishStepTimers | executor/executor.go:210-212 | A performed step sets one timer, whatever its action does. |
| JobKeys.FormatIsInjective | utils/util.go:145-147 | Different jobs have different keys, for all names, parentheses included. |
| JobKeys.DecodeFormatted | utils/util.go:149-161 | Decoding a formatted key gives back name and id iff the name has no '('; otherwise it is rejected. |
| JobKeys.CancelKeyIsInjective | executor/executor.go:97 | `name/id` determines name and id, for all names. |
| JobKeys.NodeKeyDeterminesNode | utils/util.go:139-141 | Among addresses without '@', equal node keys mean equal nodes. |
| JobKeys.NodeKeysCollideIff | utils/util.go:139-141 | For all names and addresses: node keys are equal iff the nodes are, or one name is the other followed by '@' and what the other's address lacks. |
| Text.AtoiItoa | utils/util.go:156 | Parsing a printed id gives the id, over the whole 64-bit range. |
| Text.AtoiIff | utils/util.go:156 | A text is a number iff it is digits behind at most one sign and fits; its value. |
| Text.NumberOfDigits | utils/util.go:156 | A run of digits is the printed form of its value behind some zeros. |
| Text.JoinSplit | utils/util.go:151 | Joining what was split gives the text back. |
| Text.SplitJoin | output/output.go:423 | Splitting joined parts gives them back, if none contains the separator. |
| Text.TrimRightCuts | utils/aptos.go:93 | All repetitions of the character at the end are cut off, and nothing else. |
| Text.TrimSpaceCuts | utils/aptos.go:104-109 | What is trimmed is a slice of the text; nothing but spaces was cut off, no letter, digit or sign among them; no blank, tab or line end is left at either end. |
| Dispatch.GrpcDispatcher.constructor | dispatcher/dispatcher.go:56-63 | Starts empty and valid. |
| Dispatch.GrpcDispatcher.DispatchNode | dispatcher/dispatcher.go:66-82 | Returns the node of the queue's head, if it is registered, and moves the head to the back; no index out of range. |
| Dispatch.GrpcDispatcher.Register | dispatcher/dispatcher.go:85-101 | A new node is stored under its own key and enters the queue where the list wraps; a known one changes nothing. |
| Dispatch.GrpcDispatcher.UnRegisterWithKey | dispatcher/dispatcher.go:109-129 | The key leaves the map and the back of the queue leaves the list, survivors in order; list and map stay equally long, the cursor in range, no division by zero. |
| Dispatch.GrpcDispatcher.UnRegister | dispatcher/dispatcher.go:104-107 | The same for a node's key. |
| Dispatch.GrpcDispatcher.Ping | dispatcher/dispatcher.go:132-142 | Renews a known node's time; an unknown node is refused. |
| Dispatch.GrpcDispatcher.HealthcheckNode | dispatcher/dispatcher.go:145-153 | In whatever order nodes are visited: exactly those silent for more than 180 seconds are gone, and the queue keeps its first as many keys. |
| Dispatch.GrpcDispatcher.SendJob | dispatcher/dispatcher.go:156-174 | An EXECUTE message to the node, which is appended to this job's history. |
| Dispatch.GrpcDispatcher.GetJobLatestNode | dispatcher/dispatcher.go:200-213 | The last node of the job's history, or an error. |
| Dispatch.GrpcDispatcher.CancelJob | dispatcher/dispatcher.go:176-197 | A CANCEL message to that node, or an error. |
| Dispatch.GrpcDispatcher.GetJobStatus | dispatcher/dispatcher.go:215-229 | A STATUS message to that node, or an error. |
| Dispatch.GrpcDispatcher.IsValidNode | dispatcher/dispatcher.go:231-234 | True iff the key is registered. |
| Dispatch.RotateCursor | dispatcher/dispatcher.go:73-74 | Advancing the cursor moves the head of the queue to its back. |
| Dispatch.DropBehindCursor | dispatcher/dispatcher.go:117-123 | Dropping the slot before the cursor drops the back of the queue. |
| Rotation.RunsAreSound | dispatcher/dispatcher.go:66-142 | After any sequence of operations: nodes under their own keys, list as long as the map, cursor in range. |
| Rotation.UnregisterAgreesIffAtBack | dispatcher/dispatcher.go:113-129 | Unregistering a node keeps the list a duplicate-free enumeration of the map iff it is the node dispatched last. |
| Rotation.UnregisterElsewhereStrandsANode | dispatcher/dispatcher.go:117-123 | Otherwise its key stays in the list without a node, and a registered node is no longer in the list. |
| Rotation.RunsAgree | dispatcher/dispatcher.go:66-142 | Along any run that unregisters only such nodes, list and map agree throughout. |
| Rotation.DispatchFailsOnlyWhenEmpty | dispatcher/dispatcher.go:66-82 | With list and map in agreement, dispatching fails iff there is no node. |
| Rotation.FullRound | dispatcher/dispatcher.go:73-74 | As many dispatches as there are keys pick each once, in order, and restore the queue. |
| Rotation.FairShare | dispatcher/dispatcher.go:73-74 | Over m dispatches of n distinct keys, the exact number of picks of each key. |
| Rotation.CountsDifferByAtMostOne | dispatcher/dispatcher.go:73-74 | Over any number of dispatches, no key is picked two times more than another. |
| Rotation.DispatchesFollowRotation | dispatcher/dispatcher.go:66-82 | From an agreeing list, with fixed membership and any pings and jobs in between, dispatches return the nodes under the keys of the rotation, one by one, and never fail while there is a node. |
| Rotation.EachNodeOncePerRound | dispatcher/dispatcher.go:66-82 | Any n dispatches in such a run return each of the n nodes exactly once. |
| Rotation.ShareOfNode | dispatcher/dispatcher.go:66-82 | Over such a run with m dispatches, exactly how often each node is returned. |
| Rotation.NodesShareFairly | dispatcher/dispatcher.go:66-82 | No node is returned two times more than another. |
| Rotation.HistoryIsSentTo | dispatcher/dispatcher.go:156-174 | After any run, a job's history is exactly the sequence of nodes that job was sent to. |
| Rotation.MessagesFollowTheJob | dispatcher/dispatcher.go:191-229 | Cancel and status messages go to the node the job was last sent to, never to another job's. |
| Failover.OnlyCancelIsRetried | grpc/server/aline_grpc_server.go:116-147 | With the type the code tests, an undelivered message is dispatched again iff it is a CANCEL. |
| Failover.RetriedTypes | grpc/server/aline_grpc_server.go:116-147 | An undelivered EXECUTE is dispatched again iff the type tested is 3, a CANCEL iff it is 4, a STATUS iff it is 9. |
| Failover.Master.SendNext | grpc/server/aline_grpc_server.go:112-149 | One message leaves the channel; it is delivered or reported according to its type and to how it failed. |
| Failover.Master.PickNode | engine_master.go:166-178 | Returns what the first of up to three dispatches to find a node returned; fails only after the third; the node is registered and the queue has moved on by exactly the dispatches made. |
| Failover.Master.DispatchJob | engine_master.go:163-185 | If a node is picked and the job's file can be read, exactly one EXECUTE goes to that node and joins the job's history; otherwise nothing is sent and no history changes. |
| Failover.Master.HandleError | engine_master.go:139-160 | Removes exactly the reported node and forwards the job as `DispatchJob` does from what is left, so never to the removed node; other errors change nothing. |
| Failover.Master.DispatchUntilSettled | engine_master.go:139-185 | For one job alone with list and map in agreement: nodes are tried in queue order, each once; the first that takes the job gets exactly one message and goes to the back, those before it are removed, and if none takes it none is left. |
| Failover.ForwardedToHead | engine_master.go:166-183 | When the head of the queue is registered the job goes there; with an empty queue nothing happens. |
| Failover.NextTry | engine_master.go:150-154 | A failed send removes exactly the node it was addressed to and leaves the untried ones in order. |
| Failover.Master.Settle | engine_master.go:139-185 | Both loops taking turns in any order, with no new registrations: the channels become empty whatever the network does, for any number of jobs and any retriable type. For the retriable type, any other jobs in flight, and list and map in agreement or not: a job waiting once is sent to pairwise different keys, all but the first registered at the start and so one more than those at most; its history grows by exactly those nodes; and it ends with the last one taking the job and no other, or with none and a turn whose dispatch found no node or no file. |
| Failover.Master.DispatchAndSettle | engine_master.go:139-185 | The same from the first dispatch of a job on, among any others: the keys it is tried on are pairwise different and no more than the nodes registered. |
| Failover.RunKeepsChain | engine_master.go:139-185 | After every turn of any run of the two loops: the job waits in the channels for the node tried last and for no other, or its chain has ended, and every node tried before is no longer registered. |
| Failover.SendKeepsChain | grpc/server/aline_grpc_server.go:112-149 | A turn of the send loop, whichever job it is about, keeps that. |
| Failover.ErrorKeepsChain | engine_master.go:139-160 | A turn of the error handler keeps it too: the chain is extended by a key never tried, or has failed, or is as it was. |
| Failover.Master.SendTurn | grpc/server/aline_grpc_server.go:112-149 | A turn of the send loop as a step of the run, which brings the end closer. |
| Failover.Master.ErrorTurn | engine_master.go:139-160 | A turn of the error handler as a step of the run, which removes a node or uses up an error. |
| Failover.SendTurnProgress | grpc/server/aline_grpc_server.go:112-149 | Every turn of the send loop brings that end closer. |
| Failover.ErrorTurnProgress | engine_master.go:147-157 | So does every turn of the error handler. |
| LogText.LinesAppend | output/output.go:306-319 | Lines of a text that follows whole lines come after their lines. |
| LogText.StampedLineIsPlain | output/output.go:144-151 | A line that begins with the stamp is a marker of no kind, whatever follows. |
| LogText.PayloadLines | output/output.go:144-151 | Any payload becomes its first line, stamped and so no marker, and its later lines as they are. |
| LogText.NameLines | output/output.go:198-210 | Any name becomes a marker with its first line, and its later lines as they are. |
| LogText.NameIff | output/output.go:198-210 | A name is read as it was written iff it is on one line and does not end in a carriage return. |
| LogWriter.Output.constructor | output/output.go:64-87 | The start line is buffered if the file opens; otherwise nothing is. |
| LogWriter.Output.WriteLine | output/output.go:144-151 | Appends the stamped text with exactly the newline it needs. |
| LogWriter.Output.WriteLineWithNoTime | output/output.go:153-159 | The same without the stamp. |
| LogWriter.Output.NewStep | output/output.go:209-211 | Appends the step marker. |
| LogWriter.Output.EndStages | output/output.go:122-131 | In whatever order stages are visited, at most one was open: it is ended with one line. |
| LogWriter.Output.NewStage | output/output.go:184-206 | Ends the open stage, then writes the blank line, the marker and the start time; the new stage is the only open one. |
| LogWriter.Output.Flush | output/output.go:242-253 | The entries reach the file in order, each once. |
| LogWriter.Output.TimedWrite | output/output.go:214-239 | The file holds its initial content and the flushed entries, each once; after `Done` it is left alone. |
| LogWriter.Output.Done | output/output.go:118-141 | The file is its initial content, the whole buffer, and the finish line, each entry once, and closed. |
| LogWriter.Output.Content | output/output.go:167-170 | Everything written so far. |
| LogWriter.Output.NewContent | output/output.go:173-181 | What was written since the reader last looked. |
| LogWriter.ReadsAreLossless | output/output.go:167-181 | Any run of writes and reads returns the buffer in order, without loss or repetition. |
| LogParser.ParseLogLines | output/output.go:321-395 | One stage per stage marker, in an order the program does not choose, each with the lines collected for its name and the last times among them; the job's times are the last given. |
| LogParser.AssembleStages | output/output.go:359-392 | The second loop returns each listed stage once per marker with its lines and their times. |
| LogParser.ReadTimes | output/output.go:365-379 | What one line adds to the times: its start, its end, and the duration after the comma if there is one. |
| LogParser.BucketIsLastSegment | output/output.go:321-357 | The lines collected for a stage are its last marker and what follows up to the next marker, without job and blank lines. |
| LogParser.ParseStageSteps | output/output.go:398-429 | One step per step marker, in order, each with the lines collected for its name and those lines joined as its content. |
| LogRoundTrip.WriteRun | output/output.go:64-141 | Any run of writes, flushed at any times, leaves the file with what it held and exactly the entries of the run. |
| LogRoundTrip.FileTextLines | output/output.go:306-319 | The lines of that file, one by one. |
| LogRoundTrip.BodyIsWholeStage | output/output.go:184-211 | With a stage begun once, what counts as its content is everything written until the next stage begins. |
| LogOutright.FileOfOneLine | output/output.go:64-211 | The text of the file after a run of one stage, one step and one line, letter by letter. |
| LogOutright.SurvivalInLetters | output/output.go:321-429 | The conditions under which stages, steps and lines come back, spelled out. |
| LogOutright.ContentIsLines | output/output.go:398-429 | For any file, stage and step: the step's content splits into exactly its lines. |
| LogTheorems.RoundTrip | output/output.go:321-429 | For any names and payloads, added to any earlier log: the stages parsed are the earlier ones and those begun, in order, iff every stage name is on one line without a carriage return at the end and no later line of a payload or step name is a stage marker. Then the steps of each stage come back, in order, iff the same holds of its steps; then each step holds its stamped lines and the later lines the parsers keep, and holds all lines written iff none of them is blank or looks like a job or time line. |
| LogTheorems.ReadsBackIff | output/output.go:321-429 | The three conditions together: everything begun and written comes back iff they hold. |
| LogTheorems.CarriageReturnIsLost | output/output.go:306-319 | A stage whose name ends in a carriage return comes back without it. |
| LogTheorems.FinishReadsBack | output/output.go:336-347 | Whatever was forged, the end and the duration of the run added last are read as written. |
| StageTimes.StageTimesReadBack | output/output.go:359-380 | When no stage is forged or renamed: every stage of a finished run reads back with the end and the duration written for it, whatever its payloads hold, and with its start as written, or as the last later line among its payloads and names that begins like a start says. |
| StageTimes.NothingForgedIff | output/output.go:365-368 | Payloads and names give a start iff one of their later lines begins with its mark. |
| JobTimes.JobStartReadsBack | output/output.go:332-335 | The start of the run added last reads back as written, unless a later line of its payloads or names begins like a start; then as the last of those says. |
| LogTheorems.RerunKeepsOtherStages | output/output.go:256-283 | A run added to an earlier log leaves all lines of every stage it neither begins nor forges as they were, whatever it writes. |
| LogTheorems.FinishedLogIsWhole | output/output.go:138 | A finished run leaves whole lines. |
| LogTheorems.UnfinishedLogIsWhole | output/output.go:242-253 | So does one that stopped after any number of entries. |
| StructuredLog.ParsedAsWritten | output/output.go:184-429 | With distinct stage names and distinct step names within a stage: exactly the stages, steps and lines written come back, in order, iff each stage, step and line meets its condition, stated stage by stage. |
| StructuredLog.ContinuationLinesAreNotStamped | output/output.go:144-151 | Of a payload of several lines only the first is stamped; the rest reach the file as they are. |
| StructuredLog.MultiLinePayloadForgesStage | output/output.go:144-151 | A payload that parses as the beginning of a stage. |
| Tailing.FlushKeepsLines | output/output.go:231-253 | A flush adds lines after those already in the file. |
| Tailing.BucketOnlyGrows | output/output.go:321-357 | As long as a stage is not begun again, its lines are only extended. |
| Tailing.SecondMarkRestarts | output/output.go:351-355 | A stage begun again loses the lines it had. |
| Tailing.GetJobStageLog | job/job.go:322-360 | The stage's lines from `start` on if `start` is within them, how many there are, its start and duration as the lines give them; `end` iff the last stage of that name in the job detail is SUCCESS or FAIL; an error iff a file cannot be read or the stage has no marker. |
| Tailing.ReaderStopsWhenStageEnds | job/job.go:334-353 | With any detail a run saves, `end` is true iff that stage has ended; with the last one, iff it was started. |
| Tailing.TailingIsLossless | job/job.go:343-356 | While a log grows by whole lines and the stage has one marker, successive calls return its lines with none lost and none repeated. |
| Paging.RoundingKeepsCeiling | utils/util.go:103 | Below 2^53, rounding the float quotient never changes the number of pages. |
| Paging.SlicePage | utils/util.go:92-114 | For every page and page size: page 1 for none or a negative one, 10 items for a negative size; the whole list if the size exceeds it; else the page's items, cut off at the end of the list, and none past the end. A page size of zero gives an empty page whatever the platform makes of the division. |
| Paging.PagesConcatenate | utils/util.go:99-113 | For every page size, all pages put together are the whole list, one page if the size exceeds it; later pages are empty if it does not, and else the whole list again. |
| Paging.PagePastTheEnd | utils/util.go:99-101 | A page past the end is empty iff the page size fits the list or the list is empty. |
| Paging.DescendingIsUnique | model/job.go:186-192 | With distinct ids there is one list in descending order of id. |
| Paging.JobDetailList | job/job.go:223-229 | The requested page of the descending list with its number and size, all of it if the size exceeds it, and the number of all details. |
| Paging.GetJobDetail | job/job.go:114-123 | Finds the last RUNNING stage, if there is one. |
| Paging.PatchedStageIsTheOnlyOne | job/job.go:114-123 | In every detail a run saves, that stage is the only RUNNING one. |
| Findings.FormatSAData | action/action_metascan_check.go:569-636 | Every finding is listed once, under its file and in order, with the file's key and the engine, title and place of the finding; both maps have the same files; the counters count the findings spelled `Critical`, `High`, `Medium` and `LOW`, and the last one all others. |
| Findings.GroupFiles | action/action_metascan_check.go:576-586 | The groups hold exactly the affected files of each path, in order. |
| Findings.EntriesMatchGroup | action/action_metascan_check.go:584-611 | The i-th entry listed for a file is about the i-th affected file grouped for it. |
| Findings.EntriesAreOfFindings | action/action_metascan_check.go:584-611 | Grouped files and listed entries of a path are those of its findings, one by one. |
| Findings.UnderAreOfPath | action/action_metascan_check.go:576-586 | The findings of a path are all those of the scan about it, as often. |
| Findings.AllFindingsAre | action/action_metascan_check.go:574-586 | The findings of a scan are those of its results, in order, one for each affected file. |
| Findings.EveryPathIsGrouped | action/action_metascan_check.go:594-595 | The membership guard never drops a finding. |
| Findings.TotalIsAllFindings | action/action_metascan_check.go:127 | The five counters sum to the number of findings. |
| Findings.LowIsInformational | action/action_metascan_check.go:612-622 | A finding of severity `Low` adds one to the informational counter and to no other. |
| KeyValues.KeyValuesToString | utils/aptos.go:87-94 | The items, each with its comma, without the commas at the end. |
| KeyValues.KeyValuesFromString | utils/aptos.go:96-116 | All items trimmed, or an error if one of them is malformed. |
| KeyValues.ParseItemIff | utils/aptos.go:98-111 | An item is well formed iff it has exactly one '='; its key and value are what surrounds it, trimmed. |
| KeyValues.ParseItemsIff | utils/aptos.go:96-116 | A list is accepted iff every item is, and parsed item by item. |
| KeyValues.GetKeyValuesFromString | utils/aptos.go:68-85 | Accepts the same texts, and returns the last-wins map of the same list. |
| KeyValues.LastWinsLooksUpLast | utils/aptos.go:73-83 | Looking a key up gives the value of its last occurrence. |
| KeyValues.LastWinsHasKeys | utils/aptos.go:73-83 | The map has exactly the keys of the list. |
| KeyValues.RoundTripIff | utils/aptos.go:87-116 | Parsing a printed list gives it back iff it is not empty and no key or value contains ',' or '=' or has space at either end. |

## Left out

- Shell, git, docker, k8s, IPFS, OpenAI and HTTP actions: foreign processes, represented by their outcome.
- Panics inside an action: they leave the job's status at RUNNING and are not outcomes here.
- The goroutine that saves the running step's duration every two seconds, all durations and start times, and the artifacts and reports an action returns.
- The timer listener each run starts: one sweep stands for any listener's. What a called cancel function does to an action shows only in the action's outcome.
- Channel capacities and blocking, and data races on unsynchronised fields.
- gRPC transport, the file system, YAML and JSON: files are lines or values, a send succeeds or fails.
- The log scanner's limit on the length of a line, `time.Parse` itself, `StageOutputList` over the unsplit buffer, `Lines` of the whole log.
- The worker's log streaming, status conversions, `pipeline/state*.go`, the job queue type: trivial or transport.
- `JobList`, `GetJobLog`, `GetJobStepLog`: the same loops over simpler data.
- The report scrapers (eth-gas, mythril, solhint, move-prover, sol-profiler, eslint): counters over other tools' output.
- `sort.Sort`: represented by what it returns, a permutation in descending order of id.
- Execution.Executor.Execute: is one step for its caller although other jobs' operations may come between its own; `Registry.MapsFollowHistory` covers those interleavings for the maps. The job file's own step slices, which a run also marks through sharing, are not modelled.
- Execution.HandleQueueMessage: runs the job before returning, where the source starts it in the background.
- Registry.MapsFollowHistory: each operation on a map is atomic, which the unsynchronised cancel map does not guarantee.
- Rotation.RunsAreSound: the node map and the key list change together, though they are not under one lock.
- JobKeys.NodeKeyDeterminesNode: says nothing of addresses with '@'; `JobKeys.NodeKeysCollideIff` does.
- Failover.Master.DispatchUntilSettled: is about one job alone whose file can be read, starting with list and map in agreement; `Failover.Master.Settle` and `Failover.Master.DispatchAndSettle` cover every other case, where the order of the nodes tried is not that of the queue.
- Failover.Master.Settle: with nodes that register meanwhile the loops need not come to an end, and a node that comes back can be tried again.
- LogWriter.Output.Flush: writing to an open file succeeds.
- LogTheorems.RoundTrip: says nothing of the steps of a run one of whose stages is forged or renamed, nor of an earlier log cut off within a line.
- StageTimes.StageTimesReadBack: says nothing of a run one of whose stages is forged or renamed.
- LogParser.ParseLogLines: returns the texts of the times, not what `time.Parse` makes of them.
- Paging.GetJobDetail: finds the running stage; the duration written into it is not modelled.
- Paging.SlicePage: excludes lists of 2^53 items or more, where floats no longer hold every length.
- Findings.FormatSAData: starts from the decoded scan and ends with the map, before it is written as JSON.
