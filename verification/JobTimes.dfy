/** When a job began, as its log shows it. */
module JobTimes {
  import opened Results
  import Text
  import opened LogText
  import opened LogWriter
  import opened LogParser
  import opened LogRoundTrip
  import opened LogTheorems

  /** The start that lines give, if any of them does. */
  function JobStart(lines: seq<string>): Option<string> {
    TimesOf(lines, JOB_START, JOB_END).start
  }

  lemma {:induction false} JobStartAppend(a: seq<string>, b: seq<string>)
    ensures JobStart(a + b) == if JobStart(b).Some? then JobStart(b) else JobStart(a)
    decreases |b|
  {
    hide Text.HasPrefix, Text.TrimPrefix, Text.Split;
    if b == [] {
      assert a + b == a;
    } else {
      var c, l := b[..|b| - 1], b[|b| - 1];
      JobStartAppend(a, c);
      TimesSnoc(a + c, l, JOB_START, JOB_END);
      TimesSnoc(c, l, JOB_START, JOB_END);
      assert a + b == a + c + [l] && b == c + [l];
    }
  }

  /** Only a line that begins with the mark of a start gives one. */
  lemma {:induction false} NoJobStartIff(lines: seq<string>)
    ensures JobStart(lines).None? <==> forall i :: 0 <= i < |lines| ==> !Text.HasPrefix(lines[i], "[Job] Started on ")
  {
    hide Text.HasPrefix, Text.TrimPrefix, Text.Split;
    if lines != [] {
      NoJobStartIff(lines[..|lines| - 1]);
    }
  }

  lemma OneLineStart(l: string)
    requires !IsSkipped(l) || l == ""
    ensures JobStart([l]) == None
  {
    if l != "" { JobTimesAreSkipped(l); }
    NoJobStartIff([l]);
  }

  /** The later lines of a name or a payload. */
  function LaterLines(op: LogOp): seq<string> {
    match op
    case NewStage(name, _, _, _) => Continuation(name)
    case NewStep(name) => Continuation(name)
    case WriteLine(text, _) => Continuation(text)
  }

  /** What the last later line says that begins like a start. */
  function ForgedStart(ops: seq<LogOp>): Option<string> {
    if ops == [] then None
    else
      var last := JobStart(LaterLines(ops[|ops| - 1]));
      if last.Some? then last else ForgedStart(ops[..|ops| - 1])
  }

  lemma OpStart(open: bool, op: LogOp)
    requires IsWritable(op)
    ensures JobStart(OpLines(open, op)) == JobStart(LaterLines(op))
  {
    hide JobStart, IsSkipped, IsTime, IsStep, IsStage, DropCR, Continuation, FirstPart;
    match op
    case NewStage(name, endStamp, duration, stamp) =>
      var mark, more := STAGE_MARK + DropCR(FirstPart(name)), Continuation(name);
      var end := if open then [EndLine(endStamp, duration)] else [];
      StageLine(DropCR(FirstPart(name)));
      TimeLine(DropCR(" EndTime: " + endStamp + ", Duration: " + duration));
      TimeLine(DropCR(" StartTime: " + stamp));
      OneLineStart("");
      OneLineStart(mark);
      OneLineStart(StartLine(stamp));
      OneLineStart(EndLine(endStamp, duration));
      NoLinesStart();
      assert OpLines(open, op) == end + ([""] + ([mark] + (more + [StartLine(stamp)])));
      JobStartAppend(more, [StartLine(stamp)]);
      JobStartAppend([mark], more + [StartLine(stamp)]);
      JobStartAppend([""], [mark] + (more + [StartLine(stamp)]));
      JobStartAppend(end, [""] + ([mark] + (more + [StartLine(stamp)])));
    case NewStep(name) =>
      StepLine(DropCR(FirstPart(name)));
      OneLineStart(STEP_MARK + DropCR(FirstPart(name)));
      JobStartAppend([STEP_MARK + DropCR(FirstPart(name))], Continuation(name));
    case WriteLine(text, stamp) =>
      var first := WrittenLines(text, stamp)[0];
      PayloadLines(text, stamp);
      OneLineStart(first);
      JobStartAppend([first], Continuation(text));
  }

  lemma NoLinesStart()
    ensures JobStart([]) == None
  {
  }

  lemma {:induction false} RenderedStart(ops: seq<LogOp>)
    requires AllWritable(ops)
    ensures JobStart(Rendered(ops)) == ForgedStart(ops)
  {
    hide JobStart, OpLines, IsWritable, LaterLines;
    if ops == [] {
      NoLinesStart();
    } else {
      var past, op := ops[..|ops| - 1], ops[|ops| - 1];
      RenderedStart(past);
      OpStart(CurrentOf(past).Some?, op);
      JobStartAppend(Rendered(past), OpLines(CurrentOf(past).Some?, op));
    }
  }

  /** The start of the run added last is read as written, unless a later line of a payload or a name begins like one;
      then as the last of those says. */
  lemma JobStartReadsBack(initial: string, ops: seq<LogOp>, started: string, finished: string, duration: string)
    requires WholeLines(initial) && AllWritable(ops) && IsStamp(started) && IsStamp(finished) && '\n' !in duration
    requires IsName(started)
    ensures var start := TimesOf(Lines(initial + FileText(ops, started, finished, duration)), JOB_START, JOB_END).start;
            && start == (if ForgedStart(ops).Some? then ForgedStart(ops) else Some(started))
            && ((forall i, l :: 0 <= i < |ops| && l in LaterLines(ops[i]) ==>
                   !Text.HasPrefix(l, "[Job] Started on ")) ==> start == Some(started))
  {
    hide Lines, FileText, IsWritable, JobStart, Rendered, DropCR, FinishedText, EndLine, CurrentOf, LaterLines, IsName;
    hide Text.HasPrefix, IsSkipped;
    StartIs(Lines(initial + FileText(ops, started, finished, duration)));
    var first, last := "[Job] Started on " + started, DropCR(FinishedText(finished, duration));
    var end := if CurrentOf(ops).Some? then [EndLine(finished, duration)] else [];
    var tail := end + ["", last, ""];
    LogLines(initial, ops, started, finished, duration);
    StartedLine(started);
    RenderedStart(ops);
    TailStart(CurrentOf(ops).Some?, finished, duration);
    NothingForgedAtAll(ops);
    assert Lines(initial) + FileLines(ops, started, finished, duration)
        == Lines(initial) + ([first] + (Rendered(ops) + tail));
    JobStartAppend(Rendered(ops), tail);
    JobStartAppend([first], Rendered(ops) + tail);
    JobStartAppend(Lines(initial), [first] + (Rendered(ops) + tail));
  }

  lemma StartIs(lines: seq<string>)
    ensures JobStart(lines) == TimesOf(lines, JOB_START, JOB_END).start
  {
  }

  lemma StartedLine(started: string)
    requires IsName(started)
    ensures DropCR("[Job] Started on " + started) == "[Job] Started on " + started
    ensures JobStart(["[Job] Started on " + started]) == Some(started)
  {
    hide Text.Split, Text.HasPrefix, Text.TrimPrefix;
    var line := "[Job] Started on " + started;
    StartedKeepsCR(started);
    assert line == JOB_START + started;
    AppendedMark(JOB_START, started);
    TimesSnoc([], line, JOB_START, JOB_END);
    assert [] + [line] == [line];
    assert line[6] == 'S';
    NotAMark(line, JOB_END, 6);
  }

  lemma StartedKeepsCR(started: string)
    requires IsName(started)
    ensures DropCR("[Job] Started on " + started) == "[Job] Started on " + started
  {
    var line := "[Job] Started on " + started;
    if started == "" {
      assert line[|line| - 1] == ' ';
    } else {
      assert line[|line| - 1] == started[|started| - 1];
    }
  }

  lemma TailStart(open: bool, finished: string, duration: string)
    ensures JobStart((if open then [EndLine(finished, duration)] else [])
                     + ["", DropCR(FinishedText(finished, duration)), ""]) == None
  {
    hide JobStart, IsSkipped, IsTime, IsStep, IsStage, DropCR;
    var end, last := EndLine(finished, duration), DropCR(FinishedText(finished, duration));
    TimeLine(DropCR(" EndTime: " + finished + ", Duration: " + duration));
    OneLineStart(end);
    OneLineStart("");
    FinishedIsNoStart(finished, duration);
    NoLinesStart();
    JobStartAppend([last], [""]);
    JobStartAppend([""], [last] + [""]);
    JobStartAppend(if open then [end] else [], [""] + ([last] + [""]));
    assert [""] + ([last] + [""]) == ["", last, ""];
  }

  lemma FinishedIsNoStart(finished: string, duration: string)
    ensures JobStart([DropCR(FinishedText(finished, duration))]) == None
  {
    var line := DropCR(FinishedText(finished, duration));
    assert line[6] == 'F';
    NotAMark(line, JOB_START, 6);
    NoJobStartIff([line]);
  }

  lemma {:induction false} NothingForgedAtAll(ops: seq<LogOp>)
    ensures ForgedStart(ops).None? <==>
            forall i, l :: 0 <= i < |ops| && l in LaterLines(ops[i]) ==> !Text.HasPrefix(l, "[Job] Started on ")
  {
    hide JobStart, LaterLines, Text.HasPrefix;
    if ops != [] {
      var past, op := ops[..|ops| - 1], ops[|ops| - 1];
      NothingForgedAtAll(past);
      NoJobStartIff(LaterLines(op));
      assert ops == past + [op];
    }
  }
}
