/** When a stage began and ended, as its log shows it. */
module StageTimes {
  import opened Results
  import Text
  import opened LogText
  import opened LogParser
  import opened LogWriter
  import opened LogRoundTrip
  import opened LogTheorems

  /** Formatted times and durations hold no comma and are read as written. */
  predicate CleanTimes(op: LogOp) {
    match op
    case NewStage(_, endStamp, duration, stamp) =>
      IsName(stamp) && ',' !in endStamp && ',' !in duration && IsName(duration)
    case _ => true
  }

  // ---- times of lines put together ----

  /** The times of `b`, and where it gives none those of `a`. */
  function Later(a: Times, b: Times): Times {
    Times(if b.start.Some? then b.start else a.start,
          if b.end.Some? then b.end else a.end,
          if b.duration.Some? then b.duration else a.duration)
  }

  lemma AddTimesLater(a: Times, b: Times, line: string)
    ensures AddTimes(Later(a, b), line, STAGE_START, STAGE_END) == Later(a, AddTimes(b, line, STAGE_START, STAGE_END))
  {
    hide Text.Split, Text.HasPrefix, Text.TrimPrefix;
  }

  function StageTimesOf(lines: seq<string>): Times {
    TimesOf(lines, STAGE_START, STAGE_END)
  }

  lemma {:induction false} TimesAppend(a: seq<string>, b: seq<string>)
    ensures StageTimesOf(a + b) == Later(StageTimesOf(a), StageTimesOf(b))
    decreases |b|
  {
    hide TimesOf, AddTimes;
    NoLinesNoTimes();
    if b == [] {
      assert a + b == a;
    } else {
      var c, l := b[..|b| - 1], b[|b| - 1];
      TimesAppend(a, c);
      TimesSnoc(a + c, l, STAGE_START, STAGE_END);
      TimesSnoc(c, l, STAGE_START, STAGE_END);
      AddTimesLater(StageTimesOf(a), StageTimesOf(c), l);
      assert a + b == a + c + [l] && b == c + [l];
    }
  }

  lemma OneLineTimes(l: string)
    ensures StageTimesOf([l]) == AddTimes(NO_TIMES, l, STAGE_START, STAGE_END)
  {
    hide TimesOf, AddTimes;
    NoLinesNoTimes();
    TimesSnoc([], l, STAGE_START, STAGE_END);
    assert [] + [l] == [l];
  }

  lemma PrefixOfPrefix(line: string, longer: string, shorter: string)
    requires Text.HasPrefix(longer, shorter)
    ensures Text.HasPrefix(line, longer) ==> Text.HasPrefix(line, shorter)
  {
    if Text.HasPrefix(line, longer) {
      assert line[..|longer|][..|shorter|] == line[..|shorter|];
    }
  }

  /** Only time lines give times. */
  lemma NotATime(l: string)
    requires !IsTime(l)
    ensures StageTimesOf([l]) == NO_TIMES
  {
    hide TimesOf, AddTimes;
    OneLineTimes(l);
    assert Text.HasPrefix(STAGE_START, TIME_MARK) && Text.HasPrefix(STAGE_END, TIME_MARK) by {
      assert STAGE_START == TIME_MARK + " StartTime: " && STAGE_END == TIME_MARK + " EndTime: ";
    }
    PrefixOfPrefix(l, STAGE_START, TIME_MARK);
    PrefixOfPrefix(l, STAGE_END, TIME_MARK);
    NoTimesAdded(NO_TIMES, l, STAGE_START, STAGE_END);
  }

  lemma {:induction false} KeptTimes(lines: seq<string>)
    ensures StageTimesOf(Kept(lines)) == StageTimesOf(lines)
  {
    hide TimesOf, IsSkipped, IsTime;
    if lines != [] {
      var past, l := lines[..|lines| - 1], lines[|lines| - 1];
      KeptTimes(past);
      TimesAppend(past, [l]);
      assert lines == past + [l];
      if IsSkipped(l) {
        MarksDiffer(l);
        NotATime(l);
        assert Kept(past) + [] == Kept(past);
      } else {
        TimesAppend(Kept(past), [l]);
      }
    }
  }

  lemma StartLineTimes(stamp: string)
    requires IsName(stamp)
    ensures StageTimesOf([StartLine(stamp)]) == Times(Some(stamp), None, None)
  {
    hide TimesOf, Text.Split, IsName, DropCR, StageTimesOf;
    var line := StartLine(stamp);
    KeepsCR(" StartTime: ", stamp);
    assert line == STAGE_START + stamp by {
      assert STAGE_START == TIME_MARK + " StartTime: ";
    }
    AppendedMark(STAGE_START, stamp);
    OneLineTimes(line);
    assert line[16] == 'S' && STAGE_END[16] != 'S';
    NotAMark(line, STAGE_END, 16);
  }

  lemma KeepsCR(mark: string, text: string)
    requires mark != "" && mark[|mark| - 1] != '\r' && IsName(text)
    ensures DropCR(mark + text) == mark + text
  {
    var s := mark + text;
    if text == "" {
      assert s[|s| - 1] == mark[|mark| - 1];
    } else {
      assert s[|s| - 1] == text[|text| - 1];
    }
  }

  lemma EndLineTimes(stamp: string, duration: string)
    requires ',' !in stamp && ',' !in duration && IsName(duration)
    ensures StageTimesOf([EndLine(stamp, duration)]) == Times(None, Some(stamp), Some(duration))
  {
    hide TimesOf, Text.Split, IsName, DropCR, StageTimesOf;
    var line, tail := EndLine(stamp, duration), " Duration: " + duration;
    KeepsCR(" EndTime: " + stamp + ", Duration: ", duration);
    assert line == STAGE_END + (stamp + [','] + tail) by {
      assert STAGE_END == TIME_MARK + " EndTime: ";
    }
    AppendedMark(STAGE_END, stamp + [','] + tail);
    OneLineTimes(line);
    assert line[16] == 'E' && STAGE_START[16] != 'E';
    NotAMark(line, STAGE_START, 16);
    Text.SplitFirst(stamp, ',', tail);
    Text.SplitWhole(tail, ',');
    AppendedMark(" Duration: ", duration);
  }

  // ---- what a run writes ----

  /** The times that the later lines of a name or a payload give. */
  function Forged(op: LogOp): Times {
    match op
    case NewStage(_, _, _, _) => NO_TIMES
    case NewStep(name) => StageTimesOf(Continuation(name))
    case WriteLine(text, _) => StageTimesOf(Continuation(text))
  }

  function AllForged(body: seq<LogOp>): Times {
    if body == [] then NO_TIMES else Later(AllForged(body[..|body| - 1]), Forged(body[|body| - 1]))
  }

  /** When stage `n` was last begun. */
  function StartOf(ops: seq<LogOp>, n: string): Option<string> {
    if ops == [] then None
    else
      var op := ops[|ops| - 1];
      if op.NewStage? && op.name == n then Some(op.stamp) else StartOf(ops[..|ops| - 1], n)
  }

  /** When it ended, and how long it took, if another stage was begun since. */
  function EndedAt(ops: seq<LogOp>, n: string): Option<(string, string)> {
    if ops == [] then None
    else
      var past, op := ops[..|ops| - 1], ops[|ops| - 1];
      if !op.NewStage? then EndedAt(past, n)
      else if op.name == n then None
      else if CurrentOf(past) == Some(n) then Some((op.endStamp, op.duration))
      else EndedAt(past, n)
  }

  /** The end of the run ends the stage that is still open. */
  function EndOf(ops: seq<LogOp>, n: string, finished: string, duration: string): Option<(string, string)> {
    if CurrentOf(ops) == Some(n) then Some((finished, duration)) else EndedAt(ops, n)
  }

  /** The times the log gives for stage `n` are those written: its start unless a later line gives another, and its
      end if it has ended. */
  ghost predicate ShowsTimes(t: Times, ops: seq<LogOp>, n: string) {
    && t.start == Later(Times(StartOf(ops, n), None, None), AllForged(Body(ops, n))).start
    && (CurrentOf(ops) != Some(n) ==>
          && EndedAt(ops, n).Some?
          && t.end == Some(EndedAt(ops, n).value.0) && t.duration == Some(EndedAt(ops, n).value.1))
  }

  ghost predicate TimesParse(lines: seq<string>, ops: seq<LogOp>) {
    && (CurrentOf(ops).Some? ==> CurrentStage(lines) == CurrentOf(ops).value)
    && forall n :: n in StagesOf(ops) ==> ShowsTimes(StageTimesOf(Bucket(lines, n)), ops, n)
  }

  lemma {:induction false} MoreKept(lines: seq<string>, more: seq<string>, n: string)
    requires NoStage(more)
    ensures CurrentStage(lines + more) == CurrentStage(lines)
    ensures Bucket(lines + more, n) == Bucket(lines, n) + if CurrentStage(lines) == n then Kept(more) else []
    decreases |more|
  {
    hide IsSkipped, IsStage, StageName, CurrentStage, Bucket;
    if more == [] {
      assert lines + more == lines;
    } else {
      var past, l := more[..|more| - 1], more[|more| - 1];
      MoreKept(lines, past, n);
      LineSnoc(lines + past, l, n);
      assert lines + more == lines + past + [l];
    }
  }

  /** What more lines do to the times of a stage. */
  lemma MoreTimes(lines: seq<string>, more: seq<string>, n: string)
    requires NoStage(more)
    ensures CurrentStage(lines + more) == CurrentStage(lines)
    ensures StageTimesOf(Bucket(lines + more, n))
            == if CurrentStage(lines) == n then Later(StageTimesOf(Bucket(lines, n)), StageTimesOf(more))
               else StageTimesOf(Bucket(lines, n))
  {
    hide NoStage, CurrentStage, Bucket, TimesOf, Kept;
    MoreKept(lines, more, n);
    KeptTimes(more);
    TimesAppend(Bucket(lines, n), Kept(more));
    assert Bucket(lines, n) + [] == Bucket(lines, n);
  }

  lemma TimesOfSnoc(ops: seq<LogOp>, op: LogOp, n: string)
    ensures StartOf(ops + [op], n) == if op.NewStage? && op.name == n then Some(op.stamp) else StartOf(ops, n)
    ensures EndedAt(ops + [op], n)
            == if !op.NewStage? then EndedAt(ops, n)
               else if op.name == n then None
               else if CurrentOf(ops) == Some(n) then Some((op.endStamp, op.duration))
               else EndedAt(ops, n)
  {
    assert (ops + [op])[..|ops|] == ops;
  }

  lemma ForgedSnoc(body: seq<LogOp>, op: LogOp)
    ensures AllForged(body + [op]) == Later(AllForged(body), Forged(op))
  {
    hide Forged;
    assert (body + [op])[..|body|] == body;
  }

  /** The first line of an operation gives no time. */
  lemma OpTimes(open: bool, op: LogOp)
    requires IsWritable(op) && !op.NewStage?
    ensures StageTimesOf(OpLines(open, op)) == Forged(op)
  {
    hide TimesOf, IsTime, IsSkipped, IsStep, IsStage, DropCR, Continuation, FirstPart;
    if op.NewStep? {
      var first := STEP_MARK + DropCR(FirstPart(op.name));
      StepLine(DropCR(FirstPart(op.name)));
      NotATime(first);
      TimesAppend([first], Continuation(op.name));
    } else {
      var first := WrittenLines(op.text, op.stamp)[0];
      PayloadLines(op.text, op.stamp);
      NotATime(first);
      TimesAppend([first], Continuation(op.text));
    }
  }

  lemma LinesShowTimes(lines: seq<string>, ops: seq<LogOp>, op: LogOp)
    requires TimesParse(lines, ops) && IsWritable(op) && StageSurvives(op) && !op.NewStage?
    ensures TimesParse(lines + OpLines(CurrentOf(ops).Some?, op), ops + [op])
  {
    hide Bucket, CurrentStage, Body, StagesOf, CurrentOf, OpLines, NoStage, StartOf, EndedAt, Forged, AllForged;
    hide StageTimesOf;
    hide IsWritable, StageSurvives;
    var more := OpLines(CurrentOf(ops).Some?, op);
    OpShows(CurrentOf(ops).Some?, op);
    OpTimes(CurrentOf(ops).Some?, op);
    OpSnoc(ops, op, "");
    NoStagesYet(ops);
    MoreTimes(lines, more, "");
    assert StagesOf(ops) + [] == StagesOf(ops);
    forall n | n in StagesOf(ops) ensures ShowsTimes(StageTimesOf(Bucket(lines + more, n)), ops + [op], n) {
      MoreTimes(lines, more, n);
      OpSnoc(ops, op, n);
      TimesOfSnoc(ops, op, n);
      ForgedSnoc(Body(ops, n), op);
    }
  }

  /** After the line that ends it, a stage shows when it ended. */
  lemma EndShows(lines: seq<string>, ops: seq<LogOp>, stamp: string, duration: string, n: string)
    requires TimesParse(lines, ops) && n in StagesOf(ops)
    requires ',' !in stamp && ',' !in duration && IsName(duration)
    ensures var t := StageTimesOf(Bucket(lines + [EndLine(stamp, duration)], n));
            && CurrentStage(lines + [EndLine(stamp, duration)]) == CurrentStage(lines)
            && t.start == Later(Times(StartOf(ops, n), None, None), AllForged(Body(ops, n))).start
            && (CurrentOf(ops).Some? ==>
                  EndOf(ops, n, stamp, duration).Some?
                  && t.end == Some(EndOf(ops, n, stamp, duration).value.0)
                  && t.duration == Some(EndOf(ops, n, stamp, duration).value.1))
  {
    hide Bucket, CurrentStage, Body, StagesOf, CurrentOf, NoStage, StartOf, EndedAt, AllForged, StageTimesOf, EndLine;
    hide IsName;
    EndLineIsTime(stamp, duration);
    EndLineTimes(stamp, duration);
    MoreTimes(lines, [EndLine(stamp, duration)], n);
  }

  lemma StageLinesTimes(lines: seq<string>, name: string, stamp: string, n: string)
    requires IsName(name) && IsName(stamp)
    ensures var c := lines + StageOpLines(name, stamp);
            && CurrentStage(c) == name
            && StageTimesOf(Bucket(c, n)) == if n == name then Times(Some(stamp), None, None)
                                             else StageTimesOf(Bucket(lines, n))
  {
    hide TimesOf, IsTime, IsSkipped, IsStage, StageName, DropCR, Continuation, FirstPart, IsName, Bucket, CurrentStage;
    hide StageTimesOf, AddTimes;
    var mark := STAGE_MARK + name;
    NameIff(name);
    BlankIsSkipped();
    StageLine(name);
    LineSnoc(lines, "", n);
    LineSnoc(lines + [""], mark, n);
    StartLineIsTime(stamp);
    TimeLine(DropCR(" StartTime: " + stamp));
    LineSnoc(lines + [""] + [mark], StartLine(stamp), n);
    NotATime(mark);
    StartLineTimes(stamp);
    TimesAppend([mark], [StartLine(stamp)]);
    assert lines + StageOpLines(name, stamp) == lines + [""] + [mark] + [StartLine(stamp)];
  }

  lemma StageShowsTimes(lines: seq<string>, ops: seq<LogOp>, op: LogOp)
    requires TimesParse(lines, ops) && IsWritable(op) && StageSurvives(op) && op.NewStage? && CleanTimes(op)
    ensures TimesParse(lines + OpLines(CurrentOf(ops).Some?, op), ops + [op])
  {
    hide Bucket, CurrentStage, Body, StagesOf, CurrentOf, StageOpLines, StartOf, EndedAt, AllForged, StageTimesOf;
    hide EndLine;
    hide IsName;
    var stage := StageOpLines(op.name, op.stamp);
    var open := CurrentOf(ops).Some?;
    var a := if open then lines + [EndLine(op.endStamp, op.duration)] else lines;
    assert lines + OpLines(open, op) == a + stage;
    OpSnoc(ops, op, "");
    StageLinesTimes(a, op.name, op.stamp, "");
    NothingForged();
    NoStagesYet(ops);
    forall n | n in StagesOf(ops + [op]) ensures ShowsTimes(StageTimesOf(Bucket(a + stage, n)), ops + [op], n) {
      OpSnoc(ops, op, n);
      TimesOfSnoc(ops, op, n);
      StageLinesTimes(a, op.name, op.stamp, n);
      if n != op.name {
        assert n in StagesOf(ops);
        EndShows(lines, ops, op.endStamp, op.duration, n);
      }
    }
  }

  lemma NothingForged()
    ensures AllForged([]) == NO_TIMES
  {
  }

  lemma {:induction false} RenderedTimes(before: seq<string>, first: string, ops: seq<LogOp>)
    requires IsSkipped(first) && AllWritable(ops) && StagesSurvive(ops)
    requires forall i :: 0 <= i < |ops| ==> CleanTimes(ops[i])
    ensures TimesParse(before + [first] + Rendered(ops), ops)
  {
    hide IsSkipped, OpLines, IsWritable, StageSurvives, CleanTimes, TimesParse;
    if ops == [] {
      NothingParsed(before + [first] + Rendered(ops));
    } else {
      var past, op := ops[..|ops| - 1], ops[|ops| - 1];
      var lines := before + [first] + Rendered(past);
      RenderedTimes(before, first, past);
      if op.NewStage? { StageShowsTimes(lines, past, op); } else { LinesShowTimes(lines, past, op); }
      assert ops == past + [op];
      assert before + [first] + Rendered(ops) == lines + OpLines(CurrentOf(past).Some?, op);
    }
  }

  lemma NothingParsed(lines: seq<string>)
    ensures TimesParse(lines, [])
  {
  }

  // ---- the times of a finished run ----

  /** When no stage is forged or renamed, every stage of a finished run shows the end and the duration written for
      it, whatever its payloads and names hold; and it shows its start as written, or what the last later line among
      them that gives a start says. */
  lemma StageTimesReadBack(initial: string, ops: seq<LogOp>, started: string, finished: string, duration: string,
                           n: string)
    requires WholeLines(initial) && AllWritable(ops) && IsStamp(started) && IsStamp(finished) && '\n' !in duration
    requires StagesSurvive(ops) && n in StagesOf(ops)
    requires forall i :: 0 <= i < |ops| ==> CleanTimes(ops[i])
    requires ',' !in finished && ',' !in duration && IsName(duration)
    ensures var lines := Lines(initial + FileText(ops, started, finished, duration));
            var times := TimesOf(Bucket(lines, n), STAGE_START, STAGE_END);
            && StartOf(ops, n).Some? && EndOf(ops, n, finished, duration).Some?
            && times.end == Some(EndOf(ops, n, finished, duration).value.0)
            && times.duration == Some(EndOf(ops, n, finished, duration).value.1)
            && times.start == (if AllForged(Body(ops, n)).start.Some? then AllForged(Body(ops, n)).start
                               else StartOf(ops, n))
            && ((forall i :: 0 <= i < |Body(ops, n)| ==> StartSurvives(Body(ops, n)[i])) ==>
                  times.start == StartOf(ops, n))
  {
    hide StartSurvives;
    hide Lines, FileText, FileLines, IsWritable, StagesSurvive, TimesOf, Bucket, CurrentStage, IsSkipped, Rendered;
    hide DropCR;
    hide FinishedText, EndLine, Body, AllForged, StagesOf, StartOf, EndedAt, IsName, NoStage, CleanTimes, CurrentOf;
    var before, first := Lines(initial), DropCR("[Job] Started on " + started);
    var lines, end := before + [first] + Rendered(ops), [EndLine(finished, duration)];
    var last := ["", DropCR(FinishedText(finished, duration)), ""];
    LogLines(initial, ops, started, finished, duration);
    FileLinesAre(before, ops, started, finished, duration);
    JobLinesAreSkipped(started, finished, duration);
    BlankIsSkipped();
    RenderedTimes(before, first, ops);
    BegunIsCurrent(ops, n);
    EndShows(lines, ops, finished, duration, n);
    assert Tail(CurrentOf(ops).Some?, finished, duration) == end + last;
    assert lines + (end + last) == lines + end + last;
    SkippedShowNothing(last);
    SkippedGiveNothing(last);
    MoreTimes(lines + end, last, n);
    NothingForgedIff(Body(ops, n));
  }

  lemma {:induction false} BegunIsCurrent(ops: seq<LogOp>, n: string)
    requires n in StagesOf(ops)
    ensures CurrentOf(ops).Some? && StartOf(ops, n).Some?
  {
    var past, op := ops[..|ops| - 1], ops[|ops| - 1];
    if !(op.NewStage? && op.name == n) {
      BegunIsCurrent(past, n);
    }
  }

  lemma {:induction false} SkippedGiveNothing(lines: seq<string>)
    requires forall i :: 0 <= i < |lines| ==> IsSkipped(lines[i])
    ensures StageTimesOf(lines) == NO_TIMES
  {
    hide IsSkipped, TimesOf, IsTime;
    if lines == [] {
      NoLinesNoTimes();
    } else {
      var past, l := lines[..|lines| - 1], lines[|lines| - 1];
      SkippedGiveNothing(past);
      MarksDiffer(l);
      NotATime(l);
      TimesAppend(past, [l]);
      assert lines == past + [l];
    }
  }

  /** No later line begins with the mark of a start. */
  predicate NoStart(lines: seq<string>) {
    forall i :: 0 <= i < |lines| ==> !Text.HasPrefix(lines[i], STAGE_START)
  }

  predicate StartSurvives(op: LogOp) {
    match op
    case NewStage(_, _, _, _) => true
    case NewStep(name) => NoStart(Continuation(name))
    case WriteLine(text, _) => NoStart(Continuation(text))
  }

  lemma {:induction false} NoStartIff(lines: seq<string>)
    ensures StageTimesOf(lines).start.None? <==> NoStart(lines)
  {
    hide Text.HasPrefix, Text.TrimPrefix, Text.Split;
    if lines != [] {
      NoStartIff(lines[..|lines| - 1]);
    }
  }

  /** A start is given only by a line that begins with its mark. */
  lemma {:induction false} NothingForgedIff(body: seq<LogOp>)
    ensures AllForged(body).start.None? <==> forall i :: 0 <= i < |body| ==> StartSurvives(body[i])
  {
    hide TimesOf, NoStart, Continuation;
    if body != [] {
      var past, op := body[..|body| - 1], body[|body| - 1];
      NothingForgedIff(past);
      assert body == past + [op];
      if op.NewStep? { NoStartIff(Continuation(op.name)); }
      if op.WriteLine? { NoStartIff(Continuation(op.text)); }
    }
  }
}
