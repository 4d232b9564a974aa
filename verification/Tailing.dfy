/** `GetJobStageLog`: following one stage of a log that is still being written. */
module Tailing {
  import opened Results
  import opened Text
  import opened Model
  import opened LogText
  import opened LogParser
  import LogWriter
  import opened RunSpec
  import RunTheorems
  import StageRecords
  import Scheduling

  /** What a flush adds to a file of whole lines comes after the lines already there. */
  lemma FlushKeepsLines(content: string, entries: seq<string>)
    requires WholeLines(content)
    ensures Lines(content) <= Lines(content + LogWriter.Concat(entries))
  {
    LinesAppend(content, LogWriter.Concat(entries));
  }

  predicate NoMarkOf(lines: seq<string>, n: string) {
    forall i :: 0 <= i < |lines| && StartsStage(lines[i]) ==> StageName(lines[i]) != n
  }

  /** As long as a stage is not begun again, its lines only grow at the end. */
  lemma {:induction false} BucketOnlyGrows(lines: seq<string>, more: seq<string>, n: string)
    requires NoMarkOf(more, n)
    ensures Bucket(lines, n) <= Bucket(lines + more, n)
    decreases |more|
  {
    hide IsSkipped, IsStage, StageName, CurrentStage;
    if more == [] {
      assert lines + more == lines;
    } else {
      var past := more[..|more| - 1];
      assert (lines + more)[..|lines + more| - 1] == lines + past;
      BucketOnlyGrows(lines, past, n);
    }
  }

  /** A stage begun again loses the lines it had. */
  lemma SecondMarkRestarts(lines: seq<string>, n: string)
    ensures Bucket(lines + [STAGE_MARK + n], n) == [STAGE_MARK + n]
  {
    StageLine(n);
    assert (lines + [STAGE_MARK + n])[..|lines|] == lines;
  }

  /** The lines one call returns. */
  function Chunk(lines: seq<string>, n: string, start: int): seq<string> {
    var b := Bucket(lines, n);
    if 0 <= start <= |b| then b[start..] else []
  }

  datatype JobStageLog = JobStageLog(
    start: Option<string>,
    duration: Option<string>,
    content: string,
    lastLine: nat,
    end: bool)

  /** The last stage of that name succeeded or failed. */
  ghost predicate StageEnded(detail: seq<StageDetail>, n: string) {
    exists i :: && 0 <= i < |detail| && detail[i].name == n && detail[i].status in {Success, Fail}
                && forall k :: i < k < |detail| ==> detail[k].name != n
  }

  /** Looking for the last stage of a name. */
  lemma LookFurther(detail: seq<StageDetail>, i: nat, n: string)
    requires i < |detail|
    ensures StageEnded(detail[..i + 1], n)
            <==> if detail[i].name == n then detail[i].status in {Success, Fail} else StageEnded(detail[..i], n)
  {
    var past, all := detail[..i], detail[..i + 1];
    assert all[i] == detail[i] && forall k :: 0 <= k < i ==> all[k] == past[k];
    if detail[i].name != n && StageEnded(past, n) {
      var j :| && 0 <= j < |past| && past[j].name == n && past[j].status in {Success, Fail}
               && forall k :: j < k < |past| ==> past[k].name != n;
      assert all[j].name == n;
    }
  }

  /** `file` holds the lines of the log file and `detail` the saved job detail, if they can be read. */
  method GetJobStageLog(file: Option<seq<string>>, detail: Option<seq<StageDetail>>, n: string, start: int)
    returns (r: Option<JobStageLog>)
    ensures r.Some? <==> file.Some? && detail.Some? && n in StageNames(file.value)
    ensures r.Some? ==>
              var times := TimesOf(Bucket(file.value, n), STAGE_START, STAGE_END);
              && r.value.start == times.start && r.value.duration == times.duration
              && r.value.content == Join(Chunk(file.value, n, start), '\r')
              && r.value.content == (if start < 0 || start > |Bucket(file.value, n)| then ""
                                     else Join(Bucket(file.value, n)[start..], '\r'))
              && r.value.lastLine == |Bucket(file.value, n)|
              && (r.value.end <==>
                    exists i :: && 0 <= i < |detail.value| && detail.value[i].name == n
                                && (detail.value[i].status == Success || detail.value[i].status == Fail)
                                && forall k :: i < k < |detail.value| ==> detail.value[k].name != n)
  {
    hide Bucket, StageNames, Join, TimesOf, StageEnded;
    if file.None? {
      return None;
    }
    var lines := file.value;
    var _, stages := ParseLogLines(lines);
    if detail.None? {
      return None;
    }
    var status := NotRun;
    NoneEnded(n);
    for i := 0 to |detail.value|
      invariant status in {Success, Fail} <==> StageEnded(detail.value[..i], n)
    {
      LookFurther(detail.value, i, n);
      if detail.value[i].name == n {
        status := detail.value[i].status;
      }
    }
    assert detail.value[..|detail.value|] == detail.value;
    EndedOutright(detail.value, n);
    for i := 0 to |stages|
      invariant forall j :: 0 <= j < i ==> stages[j].name != n
    {
      if stages[i].name == n {
        NamesHold(stages, i);
        assert n in multiset(StageNames(lines));
        var stageLines := stages[i].lines;
        var content := "";
        if 0 <= start <= |stageLines| {
          content := Join(stageLines[start..], '\r');
        } else {
          JoinNothing();
        }
        return Some(JobStageLog(stages[i].times.start, stages[i].times.duration, content, |stageLines|,
                                status == Success || status == Fail));
      }
    }
    NoName(stages, n);
    assert n !in multiset(StageNames(lines));
    return None;
  }

  lemma JoinNothing()
    ensures Join([], '\r') == ""
  {
  }

  lemma NoneEnded(n: string)
    ensures !StageEnded([], n)
  {
  }

  lemma EndedOutright(detail: seq<StageDetail>, n: string)
    ensures StageEnded(detail, n) <==>
            exists i :: && 0 <= i < |detail| && detail[i].name == n
                        && (detail[i].status == Success || detail[i].status == Fail)
                        && forall k :: i < k < |detail| ==> detail[k].name != n
  {
  }

  /** With the details a run saves, a reader is told to stop exactly when that stage has ended: while the run lasts,
      as soon as it is past RUNNING, and at the end if it was started at all. */
  lemma ReaderStopsWhenStageEnds(plan: seq<StageDetail>, mkdirFailed: bool, o: Oracle, k: nat, i: nat)
    requires StageRecords.Marked(plan, plan, 0, NotRun) && Scheduling.Distinct(plan) && i < |plan|
    requires k < |Run(plan, mkdirFailed, o).saved|
    ensures var saved := Run(plan, mkdirFailed, o).saved; var stages := saved[k].stages;
            && |stages| == |plan| && stages[i].name == plan[i].name
            && (StageEnded(stages, plan[i].name) <==> stages[i].status == Success || stages[i].status == Fail)
            && (k == |saved| - 1 ==> (StageEnded(stages, plan[i].name) <==> stages[i].status != NotRun))
  {
    hide Run, StageRecords.Marked;
    RunTheorems.RecordsInOrder(plan, mkdirFailed, o);
    RunTheorems.NoStageLeftRunning(plan, mkdirFailed, o);
    var stages := Run(plan, mkdirFailed, o).saved[k].stages;
    assert StageRecords.WellShaped(plan, stages);
    var m: nat, s :| m <= |plan| && s in {NotRun, Running, Fail} && StageRecords.Marked(plan, stages, m, s);
    SameNames(plan, stages, m, s);
    if stages[i].status in {Success, Fail} {
      assert stages[i].name == plan[i].name;
    }
  }

  lemma SameNames(plan: seq<StageDetail>, stages: seq<StageDetail>, m: nat, s: Status)
    requires StageRecords.Marked(plan, stages, m, s) && s in {NotRun, Running, Fail}
    ensures |stages| == |plan| && forall j :: 0 <= j < |plan| ==> stages[j].name == plan[j].name
    ensures forall j :: 0 <= j < |plan| ==> stages[j].status in {NotRun, Running, Fail, Success}
  {
  }

  lemma {:induction false} NamesHold(stages: seq<StageLog>, i: nat)
    requires i < |stages|
    ensures stages[i].name in NamesOf(stages) && stages[i].name in multiset(NamesOf(stages))
  {
    if i < |stages| - 1 {
      NamesHold(stages[..|stages| - 1], i);
    }
  }

  lemma {:induction false} NoName(stages: seq<StageLog>, n: string)
    requires forall j :: 0 <= j < |stages| ==> stages[j].name != n
    ensures n !in NamesOf(stages)
  {
    if stages != [] {
      NoName(stages[..|stages| - 1], n);
    }
  }

  // ---- following a log ----

  /** Each version of the log extends the one before by whole lines. */
  ghost predicate Growing(logs: seq<seq<string>>) {
    forall k :: 0 < k < |logs| ==> logs[k - 1] <= logs[k]
  }

  /** What successive calls return, each starting where the previous one ended. */
  function Followed(logs: seq<seq<string>>, n: string): seq<string> {
    if logs == [] then []
    else
      var k := |logs| - 1;
      var start := if k == 0 then 0 else |Bucket(logs[k - 1], n)|;
      Followed(logs[..k], n) + Chunk(logs[k], n, start)
  }

  /** While the stage is begun only once, the chunks put together are its lines: none lost, none
      repeated. */
  lemma {:induction false} TailingIsLossless(logs: seq<seq<string>>, n: string)
    requires logs != [] && Growing(logs)
    requires n in StageNames(logs[0]) && multiset(StageNames(logs[|logs| - 1]))[n] == 1
    ensures Followed(logs, n) == Bucket(logs[|logs| - 1], n)
  {
    hide Bucket, StageNames;
    var k := |logs| - 1;
    if k == 0 {
      assert Followed(logs[..0], n) == [];
    } else {
      var past := logs[..k];
      GrowingPrefix(logs, 0, k - 1);
      var more := logs[k][|logs[k - 1]|..];
      assert logs[k] == logs[k - 1] + more;
      StageNamesGrow(logs[0], logs[k - 1], n);
      NoSecondMark(logs[k - 1], more, n);
      BucketOnlyGrows(logs[k - 1], more, n);
      assert past[|past| - 1] == logs[k - 1];
      TailingIsLossless(past, n);
    }
  }

  lemma {:induction false} GrowingPrefix(logs: seq<seq<string>>, i: nat, j: nat)
    requires Growing(logs) && i <= j < |logs|
    ensures logs[i] <= logs[j]
    decreases j - i
  {
    if i < j {
      GrowingPrefix(logs, i, j - 1);
    }
  }

  lemma StageNamesGrow(a: seq<string>, b: seq<string>, n: string)
    requires a <= b && n in StageNames(a)
    ensures n in StageNames(b)
  {
    hide StageNames;
    StageNamesAppend(a, b[|a|..]);
    assert a + b[|a|..] == b;
  }

  lemma NoSecondMark(a: seq<string>, more: seq<string>, n: string)
    requires n in StageNames(a) && multiset(StageNames(a + more))[n] == 1
    ensures NoMarkOf(more, n) && multiset(StageNames(a))[n] == 1
  {
    hide StageNames;
    StageNamesAppend(a, more);
    assert n in multiset(StageNames(a));
    assert n !in multiset(StageNames(more));
    MarksAreNames(more, n);
  }

  lemma {:induction false} MarksAreNames(lines: seq<string>, n: string)
    requires n !in StageNames(lines)
    ensures NoMarkOf(lines, n)
  {
    hide IsSkipped, IsStage, StageName;
    if lines != [] {
      MarksAreNames(lines[..|lines| - 1], n);
    }
  }
}
