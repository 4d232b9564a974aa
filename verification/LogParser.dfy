/** `parseLogLines` and `ParseStageSteps`: recovering stages and steps from the lines of a log. */
module LogParser {
  import opened Results
  import opened Text
  import opened LogText

  /** The texts that are parsed as times, where there are any. */
  datatype Times = Times(start: Option<string>, end: Option<string>, duration: Option<string>)

  const NO_TIMES := Times(None, None, None)

  datatype StageLog = StageLog(name: string, lines: seq<string>, times: Times)

  datatype StepLog = StepLog(name: string, lines: seq<string>, content: string)

  // ---- what the lines of a log say, line by line ----

  /** The stage that lines belong to after `lines`. */
  function CurrentStage(lines: seq<string>): string {
    if lines == [] then "unknown"
    else
      var l := lines[|lines| - 1];
      if !IsSkipped(l) && IsStage(l) then StageName(l) else CurrentStage(lines[..|lines| - 1])
  }

  /** The stage markers, in file order. */
  function StageNames(lines: seq<string>): seq<string> {
    if lines == [] then []
    else
      var l := lines[|lines| - 1];
      StageNames(lines[..|lines| - 1]) + if !IsSkipped(l) && IsStage(l) then [StageName(l)] else []
  }

  /** The lines collected for one stage: its marker starts them afresh, another's suspends them. */
  function Bucket(lines: seq<string>, n: string): seq<string> {
    if lines == [] then []
    else
      var past, l := lines[..|lines| - 1], lines[|lines| - 1];
      if IsSkipped(l) then Bucket(past, n)
      else if IsStage(l) then (if StageName(l) == n then [l] else Bucket(past, n))
      else if CurrentStage(past) == n then Bucket(past, n) + [l]
      else Bucket(past, n)
  }

  /** The last step begun in a stage's lines. */
  function CurrentStep(lines: seq<string>): Option<string> {
    if lines == [] then None
    else
      var l := lines[|lines| - 1];
      if !IsTime(l) && IsStep(l) then Some(StepName(l)) else CurrentStep(lines[..|lines| - 1])
  }

  function StepNames(lines: seq<string>): seq<string> {
    if lines == [] then []
    else
      var l := lines[|lines| - 1];
      StepNames(lines[..|lines| - 1]) + if !IsTime(l) && IsStep(l) then [StepName(l)] else []
  }

  /** The lines collected for one step of a stage. */
  function StepBucket(lines: seq<string>, n: string): seq<string> {
    if lines == [] then []
    else
      var past, l := lines[..|lines| - 1], lines[|lines| - 1];
      if IsTime(l) then StepBucket(past, n)
      else if IsStep(l) then (if StepName(l) == n then [] else StepBucket(past, n))
      else if CurrentStep(past) == Some(n) then StepBucket(past, n) + [l]
      else StepBucket(past, n)
  }

  function StepOf(lines: seq<string>, n: string): StepLog {
    StepLog(n, StepBucket(lines, n), Join(StepBucket(lines, n), '\n'))
  }

  // ---- times ----

  const JOB_START := "[Job] Started on "
  const JOB_END := "[Job] Finished on "
  const STAGE_START := "[TimeConsuming] StartTime: "
  const STAGE_END := "[TimeConsuming] EndTime: "

  /** What one line says about the times between two marks. */
  function AddTimes(t: Times, line: string, startMark: string, endMark: string): Times {
    var u := if HasPrefix(line, startMark) then t.(start := Some(TrimPrefix(line, startMark))) else t;
    if HasPrefix(line, endMark) then
      var parts := Split(TrimPrefix(line, endMark), ',');
      u.(end := Some(parts[0]),
         duration := if |parts| > 1 then Some(TrimPrefix(parts[1], " Duration: ")) else u.duration)
    else u
  }

  /** The last times given. */
  function TimesOf(lines: seq<string>, startMark: string, endMark: string): Times {
    if lines == [] then NO_TIMES
    else AddTimes(TimesOf(lines[..|lines| - 1], startMark, endMark), lines[|lines| - 1], startMark, endMark)
  }

  lemma TimesSnoc(lines: seq<string>, l: string, startMark: string, endMark: string)
    ensures TimesOf(lines + [l], startMark, endMark)
            == AddTimes(TimesOf(lines, startMark, endMark), l, startMark, endMark)
  {
    hide AddTimes;
    assert (lines + [l])[..|lines|] == lines;
  }

  /** Job times stand in lines that are otherwise skipped. */
  lemma JobTimesAreSkipped(line: string)
    requires !IsSkipped(line)
    ensures !HasPrefix(line, JOB_START) && !HasPrefix(line, JOB_END)
  {
    if |line| >= 5 {
      assert JOB_START[..5] == JOB_MARK && JOB_END[..5] == JOB_MARK;
      assert |line| >= |JOB_START| ==> line[..|JOB_START|][..5] == line[..5];
      assert |line| >= |JOB_END| ==> line[..|JOB_END|][..5] == line[..5];
    }
  }

  // ---- the same, as segments of the file ----

  /** The lines that are kept at all. */
  function Kept(lines: seq<string>): seq<string> {
    if lines == [] then []
    else
      var l := lines[|lines| - 1];
      Kept(lines[..|lines| - 1]) + if IsSkipped(l) then [] else [l]
  }

  predicate StartsStage(l: string) {
    !IsSkipped(l) && IsStage(l)
  }

  predicate NoStage(lines: seq<string>) {
    forall i :: 0 <= i < |lines| ==> !StartsStage(lines[i])
  }

  lemma {:induction false} CurrentAfterMark(a: seq<string>, mark: string, b: seq<string>)
    requires StartsStage(mark) && NoStage(b)
    ensures CurrentStage(a + [mark] + b) == StageName(mark)
    decreases |b|
  {
    if b == [] {
      assert a + [mark] + b == a + [mark];
    } else {
      var c := b[..|b| - 1];
      assert (a + [mark] + b)[..|a| + |b|] == a + [mark] + c;
      CurrentAfterMark(a, mark, c);
    }
  }

  /** A stage's lines are its last marker and what was kept of the lines from there to the next
      stage's marker, if any. */
  lemma {:induction false} BucketIsLastSegment(a: seq<string>, mark: string, b: seq<string>, c: seq<string>)
    requires StartsStage(mark) && NoStage(b)
    requires c != [] ==> StartsStage(c[0])
    requires forall i :: 0 <= i < |c| && StartsStage(c[i]) ==> StageName(c[i]) != StageName(mark)
    ensures Bucket(a + [mark] + b + c, StageName(mark)) == [mark] + Kept(b)
    decreases |b| + |c|
  {
    hide IsSkipped, IsStage, StageName;
    var s := a + [mark] + b + c;
    if c != [] {
      var d := c[..|c| - 1];
      assert s[..|s| - 1] == a + [mark] + b + d;
      BucketIsLastSegment(a, mark, b, d);
      if !StartsStage(c[|c| - 1]) { CurrentInOther(a + [mark] + b, d, StageName(mark)); }
    } else if b != [] {
      var d := b[..|b| - 1];
      assert s[..|s| - 1] == a + [mark] + d && a + [mark] + d + c == a + [mark] + d;
      BucketIsLastSegment(a, mark, d, c);
      CurrentAfterMark(a, mark, d);
    } else {
      assert s == a + [mark];
    }
  }

  lemma {:induction false} CurrentInOther(a: seq<string>, c: seq<string>, n: string)
    requires c != [] && StartsStage(c[0])
    requires forall i :: 0 <= i < |c| && StartsStage(c[i]) ==> StageName(c[i]) != n
    ensures CurrentStage(a + c) != n
    decreases |c|
  {
    var d := c[..|c| - 1];
    assert (a + c)[..|a + c| - 1] == a + d;
    if !StartsStage(c[|c| - 1]) {
      CurrentInOther(a, d, n);
    }
  }

  // ---- lines added to a log ----

  lemma {:induction false} StageNamesAppend(a: seq<string>, b: seq<string>)
    ensures StageNames(a + b) == StageNames(a) + StageNames(b)
    decreases |b|
  {
    hide IsSkipped, IsStage, StageName;
    if b == [] {
      assert a + b == a;
    } else {
      var c := b[..|b| - 1];
      StageNamesAppend(a, c);
      assert (a + b)[..|a + b| - 1] == a + c;
    }
  }

  lemma {:induction false} StepNamesAppend(a: seq<string>, b: seq<string>)
    ensures StepNames(a + b) == StepNames(a) + StepNames(b)
    decreases |b|
  {
    hide IsTime, IsStep, StepName;
    if b == [] {
      assert a + b == a;
    } else {
      var c := b[..|b| - 1];
      StepNamesAppend(a, c);
      assert (a + b)[..|a + b| - 1] == a + c;
    }
  }

  lemma {:induction false} NoStageNames(lines: seq<string>)
    ensures StageNames(lines) == [] <==> NoStage(lines)
  {
    hide IsSkipped, IsStage, StageName;
    if lines != [] {
      NoStageNames(lines[..|lines| - 1]);
    }
  }

  /** What reaches a step of the lines of a stage: all but the time bookkeeping and skipped lines. */
  function Visible(lines: seq<string>): seq<string> {
    if lines == [] then []
    else
      var l := lines[|lines| - 1];
      Visible(lines[..|lines| - 1]) + if IsSkipped(l) || IsTime(l) then [] else [l]
  }

  predicate NoStep(lines: seq<string>) {
    forall i :: 0 <= i < |lines| ==> !IsStep(lines[i])
  }

  predicate AllVisible(lines: seq<string>) {
    forall i :: 0 <= i < |lines| ==> !IsSkipped(lines[i]) && !IsTime(lines[i])
  }

  lemma {:induction false} VisibleAppend(a: seq<string>, b: seq<string>)
    ensures Visible(a + b) == Visible(a) + Visible(b)
    decreases |b|
  {
    hide IsSkipped, IsTime;
    if b == [] {
      assert a + b == a;
    } else {
      var c := b[..|b| - 1];
      VisibleAppend(a, c);
      assert (a + b)[..|a + b| - 1] == a + c;
    }
  }

  lemma {:induction false} VisibleIsAll(lines: seq<string>)
    ensures |Visible(lines)| <= |lines|
    ensures AllVisible(lines) <==> |Visible(lines)| == |lines|
    ensures AllVisible(lines) ==> Visible(lines) == lines
  {
    hide IsSkipped, IsTime;
    if lines != [] {
      VisibleIsAll(lines[..|lines| - 1]);
    }
  }

  /** No step marker is lost, and nothing else becomes one. */
  lemma {:induction false} NoStepNames(lines: seq<string>)
    ensures StepNames(Visible(lines)) == [] <==> NoStep(lines)
  {
    hide IsSkipped, IsTime, IsStep, StepName, StepNames;
    if lines == [] {
      assert StepNames([]) == [] by { NoLinesNoSteps(); }
    } else {
      var past, l := lines[..|lines| - 1], lines[|lines| - 1];
      NoStepNames(past);
      MarksDiffer(l);
      StepNameSnoc(Visible(past), l);
      assert lines == past + [l] && Visible(past) + [] == Visible(past);
    }
  }

  lemma NoLinesNoSteps()
    ensures StepNames([]) == []
  {
  }

  lemma StepNameSnoc(a: seq<string>, l: string)
    ensures StepNames(a + [l]) == StepNames(a) + if !IsTime(l) && IsStep(l) then [StepName(l)] else []
  {
    assert (a + [l])[..|a|] == a;
  }

  lemma {:induction false} VisibleLinesAre(lines: seq<string>)
    ensures NoStep(lines) ==> NoStep(Visible(lines))
    ensures forall i :: 0 <= i < |Visible(lines)| ==> !IsTime(Visible(lines)[i])
  {
    hide IsSkipped, IsTime, IsStep;
    if lines != [] {
      VisibleLinesAre(lines[..|lines| - 1]);
    }
  }

  // ---- the parsers ----

  function NamesOf(stages: seq<StageLog>): seq<string> {
    if stages == [] then [] else NamesOf(stages[..|stages| - 1]) + [stages[|stages| - 1].name]
  }

  lemma NamesSnoc(stages: seq<StageLog>, s: StageLog)
    ensures NamesOf(stages + [s]) == NamesOf(stages) + [s.name]
  {
    assert (stages + [s])[..|stages|] == stages;
  }

  /** The map built by the first loop holds every stage's lines. */
  ghost predicate Collected(m: map<string, seq<string>>, lines: seq<string>) {
    && (forall n :: n in m ==> m[n] == Bucket(lines, n))
    && (forall n :: n !in m ==> Bucket(lines, n) == [])
    && (forall i :: 0 <= i < |StageNames(lines)| ==> StageNames(lines)[i] in m)
  }

  /** What one more line does to the stage being collected. */
  lemma LineSnoc(past: seq<string>, l: string, n: string)
    ensures CurrentStage(past + [l]) == if StartsStage(l) then StageName(l) else CurrentStage(past)
    ensures StageNames(past + [l]) == StageNames(past) + if StartsStage(l) then [StageName(l)] else []
    ensures Bucket(past + [l], n)
            == if IsSkipped(l) then Bucket(past, n)
               else if IsStage(l) && StageName(l) == n then [l]
               else if !IsStage(l) && CurrentStage(past) == n then Bucket(past, n) + [l]
               else Bucket(past, n)
  {
    hide IsSkipped, IsStage, StageName;
    assert (past + [l])[..|past|] == past;
  }

  lemma CollectLine(m: map<string, seq<string>>, past: seq<string>, line: string)
    requires Collected(m, past)
    ensures var lines := past + [line];
            var stage := if StartsStage(line) then StageName(line) else CurrentStage(past);
            var before := if StartsStage(line) || stage !in m then [] else m[stage];
            && CurrentStage(lines) == stage
            && StageNames(lines) == StageNames(past) + (if StartsStage(line) then [stage] else [])
            && Collected(if IsSkipped(line) then m else m[stage := before + [line]], lines)
  {
    hide IsSkipped, IsStage, StageName, CurrentStage, StageNames, Bucket;
    LineSnoc(past, line, "");
    forall n { LineSnoc(past, line, n); }
  }

  /** Stages come out once for each of their markers, in an order the program does not choose. */
  method ParseLogLines(lines: seq<string>) returns (times: Times, stages: seq<StageLog>)
    ensures times == TimesOf(lines, JOB_START, JOB_END)
    ensures multiset(NamesOf(stages)) == multiset(StageNames(lines))
    ensures forall i :: 0 <= i < |stages| ==> IsStageLog(stages[i], lines)
  {
    hide Bucket, Collected, IsSkipped, IsStage, StageName, StageNames, CurrentStage, NamesOf, TimesOf, AddTimes;
    var stageName := "unknown";
    var stageNameList: seq<string> := [];
    var stageOutputMap: map<string, seq<string>> := map[];
    times := NO_TIMES;
    NothingCollected();
    for i := 0 to |lines|
      invariant times == TimesOf(lines[..i], JOB_START, JOB_END)
      invariant stageName == CurrentStage(lines[..i])
      invariant stageNameList == StageNames(lines[..i])
      invariant Collected(stageOutputMap, lines[..i])
    {
      var line := lines[i];
      ghost var m := stageOutputMap;
      CollectLine(stageOutputMap, lines[..i], line);
      TimesSnoc(lines[..i], line, JOB_START, JOB_END);
      assert lines[..i + 1] == lines[..i] + [line];
      if IsSkipped(line) {
        times := ReadTimes(times, line, JOB_START, JOB_END);
      } else {
        JobTimesAreSkipped(line);
        NoTimesAdded(times, line, JOB_START, JOB_END);
        if IsStage(line) {
          stageName := StageName(line);
          stageOutputMap := stageOutputMap[stageName := []];
          stageNameList := stageNameList + [stageName];
        }
        var before := if stageName in stageOutputMap then stageOutputMap[stageName] else [];
        stageOutputMap := stageOutputMap[stageName := before + [line]];
        assert stageOutputMap == m[stageName := before + [line]];
      }
    }
    assert lines[..|lines|] == lines;
    stages := AssembleStages(stageOutputMap, stageNameList, lines);
  }

  /** A stage with the lines collected for its name and the times they give. */
  ghost predicate IsStageLog(stage: StageLog, lines: seq<string>) {
    stage.lines == Bucket(lines, stage.name) && stage.times == TimesOf(stage.lines, STAGE_START, STAGE_END)
  }

  lemma NoTimesAdded(t: Times, line: string, startMark: string, endMark: string)
    requires !HasPrefix(line, startMark) && !HasPrefix(line, endMark)
    ensures AddTimes(t, line, startMark, endMark) == t
  {
  }

  /** The two conditionals that look for a start and an end. */
  method ReadTimes(t: Times, line: string, startMark: string, endMark: string) returns (u: Times)
    ensures u == AddTimes(t, line, startMark, endMark)
  {
    hide Split;
    u := t;
    if HasPrefix(line, startMark) {
      u := u.(start := Some(TrimPrefix(line, startMark)));
    }
    if HasPrefix(line, endMark) {
      var parts := Split(TrimPrefix(line, endMark), ',');
      u := u.(end := Some(parts[0]));
      if |parts| > 1 {
        u := u.(duration := Some(TrimPrefix(parts[1], " Duration: ")));
      }
    }
  }

  method ReadStageTimes(v: seq<string>) returns (t: Times)
    ensures t == TimesOf(v, STAGE_START, STAGE_END)
  {
    hide AddTimes, TimesOf;
    t := NO_TIMES;
    NoLinesNoTimes();
    for i := 0 to |v|
      invariant t == TimesOf(v[..i], STAGE_START, STAGE_END)
    {
      TimesSnoc(v[..i], v[i], STAGE_START, STAGE_END);
      assert v[..i + 1] == v[..i] + [v[i]];
      t := ReadTimes(t, v[i], STAGE_START, STAGE_END);
    }
    assert v[..|v|] == v;
  }

  lemma NoLinesNoTimes()
    ensures TimesOf([], STAGE_START, STAGE_END) == NO_TIMES
  {
  }

  lemma NothingCollected()
    ensures Collected(map[], []) && CurrentStage([]) == "unknown" && StageNames([]) == []
    ensures TimesOf([], JOB_START, JOB_END) == NO_TIMES
  {
  }

  method AssembleStages(stageOutputMap: map<string, seq<string>>, stageNameList: seq<string>, ghost lines: seq<string>)
    returns (stages: seq<StageLog>)
    requires Collected(stageOutputMap, lines) && stageNameList == StageNames(lines)
    ensures multiset(NamesOf(stages)) == multiset(stageNameList)
    ensures forall i :: 0 <= i < |stages| ==> IsStageLog(stages[i], lines)
  {
    hide Bucket, StageNames, NamesOf, TimesOf;
    stages := [];
    var pending := stageOutputMap.Keys;
    NoNames();
    while pending != {}
      invariant pending <= stageOutputMap.Keys
      invariant forall x :: multiset(NamesOf(stages))[x]
                              == if x in stageOutputMap.Keys - pending then multiset(stageNameList)[x] else 0
      invariant forall i :: 0 <= i < |stages| ==> IsStageLog(stages[i], lines)
      decreases pending
    {
      var k :| k in pending;
      stages := AddOccurrences(stages, k, stageOutputMap[k], stageNameList);
      pending := pending - {k};
    }
    forall x ensures multiset(NamesOf(stages))[x] == multiset(stageNameList)[x] {
      if x !in stageOutputMap { assert x !in stageNameList; }
    }
  }

  /** The inner loop: one entry for each occurrence of `k` in the list. */
  method AddOccurrences(before: seq<StageLog>, k: string, v: seq<string>, stageNameList: seq<string>)
    returns (stages: seq<StageLog>)
    ensures before <= stages
    ensures forall i :: |before| <= i < |stages| ==> stages[i] == StageLog(k, v, TimesOf(v, STAGE_START, STAGE_END))
    ensures forall x :: multiset(NamesOf(stages))[x]
                              == multiset(NamesOf(before))[x] + if x == k then multiset(stageNameList)[k] else 0
  {
    hide NamesOf, TimesOf;
    stages := before;
    for i := 0 to |stageNameList|
      invariant before <= stages
      invariant forall j :: |before| <= j < |stages| ==> stages[j] == StageLog(k, v, TimesOf(v, STAGE_START, STAGE_END))
      invariant forall x :: multiset(NamesOf(stages))[x]
                              == multiset(NamesOf(before))[x] + if x == k then multiset(stageNameList[..i])[k] else 0
    {
      assert stageNameList[..i + 1] == stageNameList[..i] + [stageNameList[i]];
      if stageNameList[i] == k {
        var times := ReadStageTimes(v);
        NamesSnoc(stages, StageLog(k, v, times));
        stages := stages + [StageLog(k, v, times)];
      }
    }
    assert stageNameList[..|stageNameList|] == stageNameList;
  }

  lemma NoNames()
    ensures NamesOf([]) == []
  {
  }

  /** Steps come out in file order, once for each of their markers. */
  method ParseStageSteps(lines: seq<string>) returns (result: seq<StepLog>)
    ensures |result| == |StepNames(lines)|
    ensures forall i :: 0 <= i < |result| ==> result[i] == StepOf(lines, StepNames(lines)[i])
    ensures forall i :: 0 <= i < |result| ==>
              && result[i].name == StepNames(lines)[i] && result[i].lines == StepBucket(lines, result[i].name)
              && result[i].content == Join(result[i].lines, '\n')
  {
    hide StepBucket, StepCollected, IsTime, IsStep, StepName, StepNames, CurrentStep, Join;
    var stepNameList: seq<string> := [];
    var stepMap: map<string, seq<string>> := map[];
    NoStepsCollected();
    for i := 0 to |lines|
      invariant stepNameList == StepNames(lines[..i])
      invariant StepCollected(stepMap, lines[..i])
    {
      var s := lines[i];
      StepCollectLine(stepMap, lines[..i], s);
      LastStepName(lines[..i]);
      assert lines[..i + 1] == lines[..i] + [s];
      if !IsTime(s) {
        if IsStep(s) {
          var stepName := StepName(s);
          stepNameList := stepNameList + [stepName];
          stepMap := stepMap[stepName := []];
        } else if |stepNameList| != 0 {
          var stepName := stepNameList[|stepNameList| - 1];
          stepMap := stepMap[stepName := stepMap[stepName] + [s]];
        }
      }
    }
    assert lines[..|lines|] == lines;
    CollectedSteps(stepMap, lines);
    result := [];
    for i := 0 to |stepNameList|
      invariant |result| == i
      invariant forall j :: 0 <= j < i ==> result[j] == StepOf(lines, stepNameList[j])
    {
      var k := stepNameList[i];
      result := result + [StepLog(k, stepMap[k], Join(stepMap[k], '\n'))];
    }
  }

  ghost predicate StepCollected(m: map<string, seq<string>>, lines: seq<string>) {
    && (forall n :: n in m ==> m[n] == StepBucket(lines, n))
    && (forall i :: 0 <= i < |StepNames(lines)| ==> StepNames(lines)[i] in m)
  }

  lemma NoStepsCollected()
    ensures StepCollected(map[], []) && StepNames([]) == []
  {
  }

  lemma CollectedSteps(m: map<string, seq<string>>, lines: seq<string>)
    requires StepCollected(m, lines)
    ensures forall i :: 0 <= i < |StepNames(lines)| ==>
              StepNames(lines)[i] in m && m[StepNames(lines)[i]] == StepBucket(lines, StepNames(lines)[i])
  {
    hide StepBucket, StepNames;
  }

  /** The name the parser takes for the current step. */
  lemma {:induction false} LastStepName(lines: seq<string>)
    ensures CurrentStep(lines)
            == if StepNames(lines) == [] then None else Some(StepNames(lines)[|StepNames(lines)| - 1])
  {
    hide IsTime, IsStep, StepName;
    if lines != [] {
      LastStepName(lines[..|lines| - 1]);
    }
  }

  lemma StepCollectLine(m: map<string, seq<string>>, past: seq<string>, s: string)
    requires StepCollected(m, past)
    ensures var lines := past + [s];
            && StepNames(lines) == StepNames(past) + (if !IsTime(s) && IsStep(s) then [StepName(s)] else [])
            && (CurrentStep(past).Some? ==> CurrentStep(past).value in m)
            && StepCollected(if IsTime(s) then m
                             else if IsStep(s) then m[StepName(s) := []]
                             else if CurrentStep(past).None? then m
                             else m[CurrentStep(past).value := m[CurrentStep(past).value] + [s]], lines)
  {
    hide IsTime, IsStep, StepName;
    LastStepName(past);
    assert (past + [s])[..|past|] == past;
  }
}
