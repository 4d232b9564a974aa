/** What a run writes to its log is what parsing the finished log gives back. */
module LogRoundTrip {
  import opened Results
  import opened LogText
  import opened LogParser
  import opened LogWriter
  import opened Sequences

  datatype LogOp =
    | NewStage(name: string, endStamp: string, duration: string, stamp: string)
    | NewStep(name: string)
    | WriteLine(text: string, stamp: string)

  /** Formatted times are stamps and durations are on one line; names and payloads are any text. */
  predicate IsWritable(op: LogOp) {
    match op
    case NewStage(_, endStamp, duration, stamp) => IsStamp(endStamp) && '\n' !in duration && IsStamp(stamp)
    case NewStep(_) => true
    case WriteLine(_, stamp) => IsStamp(stamp)
  }

  predicate AllWritable(ops: seq<LogOp>) {
    forall i :: 0 <= i < |ops| ==> IsWritable(ops[i])
  }

  // ---- what was written, stage by stage and step by step ----

  function StagesOf(ops: seq<LogOp>): seq<string> {
    if ops == [] then []
    else
      var op := ops[|ops| - 1];
      StagesOf(ops[..|ops| - 1]) + if op.NewStage? then [op.name] else []
  }

  function CurrentOf(ops: seq<LogOp>): Option<string> {
    if ops == [] then None
    else if ops[|ops| - 1].NewStage? then Some(ops[|ops| - 1].name)
    else CurrentOf(ops[..|ops| - 1])
  }

  /** What was written to stage `n` since it was last begun. */
  function Body(ops: seq<LogOp>, n: string): seq<LogOp> {
    if ops == [] then []
    else
      var past, op := ops[..|ops| - 1], ops[|ops| - 1];
      if op.NewStage? then (if op.name == n then [] else Body(past, n))
      else if CurrentOf(past) == Some(n) then Body(past, n) + [op]
      else Body(past, n)
  }

  function StepsOf(body: seq<LogOp>): seq<string> {
    if body == [] then []
    else
      var op := body[|body| - 1];
      StepsOf(body[..|body| - 1]) + if op.NewStep? then [op.name] else []
  }

  function CurrentStepOf(body: seq<LogOp>): Option<string> {
    if body == [] then None
    else if body[|body| - 1].NewStep? then Some(body[|body| - 1].name)
    else CurrentStepOf(body[..|body| - 1])
  }

  /** What was written to step `s` of a stage since it was last begun. */
  function StepBody(body: seq<LogOp>, s: string): seq<LogOp> {
    if body == [] then []
    else
      var past, op := body[..|body| - 1], body[|body| - 1];
      match op
      case NewStep(m) => if m == s then [] else StepBody(past, s)
      case WriteLine(_, _) => StepBody(past, s) + if CurrentStepOf(past) == Some(s) then [op] else []
      case NewStage(_, _, _, _) => StepBody(past, s)
  }

  /** All lines of the payloads written. */
  function AllLines(ops: seq<LogOp>): seq<string> {
    if ops == [] then []
    else
      var op := ops[|ops| - 1];
      AllLines(ops[..|ops| - 1]) + if op.WriteLine? then WrittenLines(op.text, op.stamp) else []
  }

  /** Those of them that a step shows. */
  function VisibleLines(ops: seq<LogOp>): seq<string> {
    if ops == [] then []
    else
      var op := ops[|ops| - 1];
      VisibleLines(ops[..|ops| - 1]) + if op.WriteLine? then Visible(WrittenLines(op.text, op.stamp)) else []
  }

  // ---- what survives being written and read ----

  /** Stage names are on one line and do not end in a carriage return, and no later line of a payload or a step
      name is a stage marker. */
  predicate StagesSurvive(ops: seq<LogOp>) {
    forall i :: 0 <= i < |ops| ==> StageSurvives(ops[i])
  }

  predicate StageSurvives(op: LogOp) {
    match op
    case NewStage(name, _, _, _) => IsName(name)
    case NewStep(name) => NoStage(Continuation(name))
    case WriteLine(text, _) => NoStage(Continuation(text))
  }

  /** The same for steps. */
  predicate StepsSurvive(body: seq<LogOp>) {
    forall i :: 0 <= i < |body| ==> StepSurvives(body[i])
  }

  predicate StepSurvives(op: LogOp) {
    match op
    case NewStage(_, _, _, _) => true
    case NewStep(name) => IsName(name)
    case WriteLine(text, _) => NoStep(Continuation(text))
  }

  /** No payload's later line is blank or looks like a job or time line. */
  predicate LinesSurvive(ops: seq<LogOp>) {
    forall i :: 0 <= i < |ops| ==> (ops[i].WriteLine? ==> AllVisible(Continuation(ops[i].text)))
  }

  /** What one more operation adds to the stages. */
  lemma OpSnoc(ops: seq<LogOp>, op: LogOp, n: string)
    ensures StagesOf(ops + [op]) == StagesOf(ops) + if op.NewStage? then [op.name] else []
    ensures CurrentOf(ops + [op]) == if op.NewStage? then Some(op.name) else CurrentOf(ops)
    ensures Body(ops + [op], n)
            == if op.NewStage? then (if op.name == n then [] else Body(ops, n))
               else if CurrentOf(ops) == Some(n) then Body(ops, n) + [op]
               else Body(ops, n)
  {
    assert (ops + [op])[..|ops|] == ops;
  }

  /** And to the steps of a stage. */
  lemma BodyOpSnoc(body: seq<LogOp>, op: LogOp, s: string)
    ensures StepsOf(body + [op]) == StepsOf(body) + if op.NewStep? then [op.name] else []
    ensures CurrentStepOf(body + [op]) == if op.NewStep? then Some(op.name) else CurrentStepOf(body)
    ensures StepBody(body + [op], s)
            == match op
               case NewStep(m) => if m == s then [] else StepBody(body, s)
               case WriteLine(_, _) => StepBody(body, s) + if CurrentStepOf(body) == Some(s) then [op] else []
               case NewStage(_, _, _, _) => StepBody(body, s)
  {
    assert (body + [op])[..|body|] == body;
  }

  lemma {:induction false} BodyAfterMark(a: seq<LogOp>, op: LogOp, b: seq<LogOp>)
    requires op.NewStage? && forall i :: 0 <= i < |b| ==> !b[i].NewStage?
    ensures Body(a + [op] + b, op.name) == b && CurrentOf(a + [op] + b) == Some(op.name)
    decreases |b|
  {
    hide Body, CurrentOf;
    if b == [] {
      OpSnoc(a, op, op.name);
      assert a + [op] + b == a + [op];
    } else {
      var d, x := b[..|b| - 1], b[|b| - 1];
      BodyAfterMark(a, op, d);
      OpSnoc(a + [op] + d, x, op.name);
      assert a + [op] + b == a + [op] + d + [x];
    }
  }

  lemma {:induction false} OtherStagesKeepBody(r: seq<LogOp>, c: seq<LogOp>, n: string)
    requires c != [] && c[0].NewStage?
    requires forall i :: 0 <= i < |c| && c[i].NewStage? ==> c[i].name != n
    ensures Body(r + c, n) == Body(r, n) && CurrentOf(r + c) != Some(n)
    decreases |c|
  {
    hide Body, CurrentOf;
    var d, x := c[..|c| - 1], c[|c| - 1];
    assert r + c == r + d + [x];
    OpSnoc(r + d, x, n);
    if d == [] {
      assert r + d == r;
    } else {
      OtherStagesKeepBody(r, d, n);
    }
  }

  /** With names used once, "since it was last begun" is all of it: a stage's body is everything
      written between its beginning and the next stage's. */
  lemma BodyIsWholeStage(a: seq<LogOp>, op: LogOp, b: seq<LogOp>, c: seq<LogOp>)
    requires op.NewStage? && forall i :: 0 <= i < |b| ==> !b[i].NewStage?
    requires c != [] ==> c[0].NewStage?
    requires forall i :: 0 <= i < |c| && c[i].NewStage? ==> c[i].name != op.name
    ensures Body(a + [op] + b + c, op.name) == b
    ensures CurrentOf(a + [op] + b + c) == Some(op.name) <==> c == []
  {
    hide Body, CurrentOf;
    BodyAfterMark(a, op, b);
    if c == [] {
      assert a + [op] + b + c == a + [op] + b;
    } else {
      OtherStagesKeepBody(a + [op] + b, c, op.name);
    }
  }

  // ---- the entries of a run, and the lines they become ----

  function OpEntries(open: bool, op: LogOp): seq<string> {
    match op
    case NewStage(name, endStamp, duration, stamp) =>
      (if open then [EndEntry(endStamp, duration)] else []) + StageEntries(name, stamp)
    case NewStep(name) => [StepEntry(name)]
    case WriteLine(text, stamp) => [LineEntry(text, stamp)]
  }

  function Entries(ops: seq<LogOp>): seq<string> {
    if ops == [] then []
    else Entries(ops[..|ops| - 1]) + OpEntries(CurrentOf(ops[..|ops| - 1]).Some?, ops[|ops| - 1])
  }

  /** The whole buffer of a run that was started and finished. */
  function Buffer(ops: seq<LogOp>, started: string, finished: string, duration: string): seq<string> {
    [StartedEntry(started)] + Entries(ops) + if CurrentOf(ops).Some? then [EndEntry(finished, duration)] else []
  }

  lemma EntriesSnoc(ops: seq<LogOp>, op: LogOp)
    ensures Entries(ops + [op]) == Entries(ops) + OpEntries(CurrentOf(ops).Some?, op)
    ensures CurrentOf(ops + [op]).Some? <==> CurrentOf(ops).Some? || op.NewStage?
  {
    assert (ops + [op])[..|ops|] == ops;
  }

  method WriteOp(out: Output, op: LogOp)
    requires out.Valid()
    modifies out`buffer, out`stageDone
    ensures out.Valid()
    ensures out.buffer == old(out.buffer) + OpEntries(old(out.HasOpenStage()), op)
    ensures out.HasOpenStage() <==> old(out.HasOpenStage()) || op.NewStage?
  {
    hide StageEntries, EndEntry, StepEntry, LineEntry;
    match op {
      case NewStage(name, endStamp, d, stamp) => out.NewStage(name, endStamp, d, stamp);
      case NewStep(name) => out.NewStep(name);
      case WriteLine(text, stamp) => out.WriteLine(text, stamp);
    }
  }

  /** Writes a run to a log, flushing whenever `flush` says, and finishes it. */
  method WriteRun(file: Option<string>, ops: seq<LogOp>, started: string, finished: string, duration: string,
                  flush: nat -> bool)
    returns (out: Output)
    ensures out.Valid() && fresh(out)
    ensures file.None? ==> out.f == Missing
    ensures file.Some? ==>
              out.f == Closed(file.value + FileText(ops, started, finished, duration))
  {
    hide Concat, OpEntries, EndEntry, StartedEntry, FinishedEntry, Entries, Output.Valid, Output.HasOpenStage;
    hide CurrentOf;
    out := new Output(file, started);
    ghost var first := out.buffer;
    NoEntriesYet();
    assert ops[..0] == [] && first + [] == first;
    for i := 0 to |ops|
      invariant out.Valid() && fresh(out) && !out.done
      invariant out.f.Open? <==> file.Some?
      invariant file.Some? ==> out.initial == file.value
      invariant file.None? ==> out.f == Missing
      invariant out.buffer == first + Entries(ops[..i])
      invariant out.HasOpenStage() <==> CurrentOf(ops[..i]).Some?
    {
      EntriesSnoc(ops[..i], ops[i]);
      assert ops[..i + 1] == ops[..i] + [ops[i]];
      ghost var before := out.buffer;
      ghost var open := out.HasOpenStage();
      WriteOp(out, ops[i]);
      assert out.buffer == first + (Entries(ops[..i]) + OpEntries(open, ops[i]));
      if flush(i) {
        out.TimedWrite();
      }
    }
    assert ops[..|ops|] == ops;
    out.Done(finished, duration);
    if file.Some? {
      Regroup(file.value, Concat(out.buffer), FinishedEntry(finished, duration));
    }
  }

  lemma NoEntriesYet()
    ensures Entries([]) == [] && CurrentOf([]) == None
  {
  }

  function EndLine(stamp: string, duration: string): string {
    TIME_MARK + DropCR(" EndTime: " + stamp + ", Duration: " + duration)
  }

  function StartLine(stamp: string): string {
    TIME_MARK + DropCR(" StartTime: " + stamp)
  }

  function OpLines(open: bool, op: LogOp): seq<string> {
    match op
    case NewStage(name, endStamp, duration, stamp) =>
      (if open then [EndLine(endStamp, duration)] else []) + StageOpLines(name, stamp)
    case NewStep(name) => MarkedLines(STEP_MARK, name)
    case WriteLine(text, stamp) => WrittenLines(text, stamp)
  }

  function StageOpLines(name: string, stamp: string): seq<string> {
    [""] + MarkedLines(STAGE_MARK, name) + [StartLine(stamp)]
  }

  function Rendered(ops: seq<LogOp>): seq<string> {
    if ops == [] then []
    else Rendered(ops[..|ops| - 1]) + OpLines(CurrentOf(ops[..|ops| - 1]).Some?, ops[|ops| - 1])
  }

  lemma OneLine(t: string)
    requires '\n' !in t
    ensures Terminated(t) == t + "\n"
    ensures Lines(t + "\n") == [DropCR(t)] && WholeLines(t + "\n")
  {
    hide Lines;
    FirstLine(t, "");
    NoLines();
    assert t + "\n" + "" == t + "\n";
    assert t != "" ==> t[|t| - 1] in t;
  }

  lemma MarkLine(mark: string, text: string)
    requires '\n' !in mark && '\n' !in text && (text == "" ==> mark != "" && mark[|mark| - 1] != '\r')
    ensures Lines(Terminated(mark + text)) == [mark + DropCR(text)] && WholeLines(Terminated(mark + text))
  {
    hide Lines;
    OneLine(mark + text);
    if text != "" && text[|text| - 1] == '\r' {
      assert (mark + text)[..|mark + text| - 1] == mark + text[..|text| - 1];
    }
  }

  lemma EndEntryLines(stamp: string, duration: string)
    requires IsStamp(stamp) && '\n' !in duration
    ensures Lines(EndEntry(stamp, duration)) == [EndLine(stamp, duration)] && WholeLines(EndEntry(stamp, duration))
  {
    hide Lines, DropCR;
    MarkLine(TIME_MARK, " EndTime: " + stamp + ", Duration: " + duration);
  }

  lemma StageEntriesLines(name: string, stamp: string)
    requires IsStamp(stamp)
    ensures Lines(Concat(StageEntries(name, stamp))) == StageOpLines(name, stamp)
    ensures WholeLines(Concat(StageEntries(name, stamp)))
  {
    hide Lines, DropCR, Concat, MarkedLines;
    var a, b, c := "\n", Terminated(STAGE_MARK + name), Terminated(TIME_MARK + (" StartTime: " + stamp));
    OneLine("");
    assert "" + "\n" == a;
    NameLines(STAGE_MARK, name);
    MarkLine(TIME_MARK, " StartTime: " + stamp);
    assert StageEntries(name, stamp) == [a] + [b] + [c];
    ConcatOne(a);
    ConcatOne(b);
    ConcatOne(c);
    ConcatAppend([a] + [b], [c]);
    ConcatAppend([a], [b]);
    LinesAppend(a + b, c);
    LinesAppend(a, b);
    assert DropCR("") == "" by { EmptyLine(); }
  }

  lemma EmptyLine()
    ensures DropCR("") == ""
  {
  }

  lemma OpEntriesLines(open: bool, op: LogOp)
    requires IsWritable(op)
    ensures Lines(Concat(OpEntries(open, op))) == OpLines(open, op) && WholeLines(Concat(OpEntries(open, op)))
  {
    hide Lines, DropCR, Concat, EndEntry, StageEntries, EndLine, StageOpLines, WrittenLines, Terminated, IsPlain;
    hide Stamped, MarkedLines;
    match op
    case NewStage(name, endStamp, duration, stamp) =>
      StageEntriesLines(name, stamp);
      if open {
        EndEntryLines(endStamp, duration);
        ConcatOne(EndEntry(endStamp, duration));
        ConcatAppend([EndEntry(endStamp, duration)], StageEntries(name, stamp));
        LinesAppend(EndEntry(endStamp, duration), Concat(StageEntries(name, stamp)));
      } else {
        assert [] + StageEntries(name, stamp) == StageEntries(name, stamp);
        assert [] + StageOpLines(name, stamp) == StageOpLines(name, stamp);
      }
    case NewStep(name) =>
      ConcatOne(StepEntry(name));
      NameLines(STEP_MARK, name);
    case WriteLine(text, stamp) =>
      ConcatOne(LineEntry(text, stamp));
      PayloadLines(text, stamp);
  }

  lemma {:induction false} EntriesLines(ops: seq<LogOp>)
    requires AllWritable(ops)
    ensures Lines(Concat(Entries(ops))) == Rendered(ops) && WholeLines(Concat(Entries(ops)))
  {
    hide Lines, Concat, OpEntries, OpLines, IsWritable;
    if ops == [] {
      NoEntries();
    } else {
      var past := ops[..|ops| - 1];
      var open := CurrentOf(past).Some?;
      EntriesLines(past);
      OpEntriesLines(open, ops[|ops| - 1]);
      ConcatAppend(Entries(past), OpEntries(open, ops[|ops| - 1]));
      LinesAppend(Concat(Entries(past)), Concat(OpEntries(open, ops[|ops| - 1])));
    }
  }

  lemma NoEntries()
    ensures Concat([]) == "" && Lines("") == []
  {
  }

  /** What a run adds to the file. */
  function FileText(ops: seq<LogOp>, started: string, finished: string, duration: string): string {
    Concat(Buffer(ops, started, finished, duration)) + FinishedEntry(finished, duration)
  }

  function FileLines(ops: seq<LogOp>, started: string, finished: string, duration: string): seq<string> {
    [DropCR("[Job] Started on " + started)] + Rendered(ops)
    + (if CurrentOf(ops).Some? then [EndLine(finished, duration)] else [])
    + ["", DropCR(FinishedText(finished, duration)), ""]
  }

  lemma FileTextLines(ops: seq<LogOp>, started: string, finished: string, duration: string)
    requires AllWritable(ops) && IsStamp(started) && IsStamp(finished) && '\n' !in duration
    ensures Lines(FileText(ops, started, finished, duration)) == FileLines(ops, started, finished, duration)
  {
    hide Lines, DropCR, Concat, EndEntry, StartedEntry, FinishedEntry, EndLine, Entries, Rendered, IsWritable;
    var first, last := StartedEntry(started), FinishedEntry(finished, duration);
    var end := if CurrentOf(ops).Some? then [EndEntry(finished, duration)] else [];
    StartedLine(started);
    FinishedLines(finished, duration);
    EntriesLines(ops);
    ConcatOne(first);
    ConcatAppend([first] + Entries(ops), end);
    ConcatAppend([first], Entries(ops));
    LinesAppend(first, Concat(Entries(ops)));
    WholeAppend(first, Concat(Entries(ops)));
    EndLines(CurrentOf(ops).Some?, finished, duration);
    LinesAppend(first + Concat(Entries(ops)), Concat(end));
    WholeAppend(first + Concat(Entries(ops)), Concat(end));
    LinesAppend(first + Concat(Entries(ops)) + Concat(end), last);
  }

  lemma WholeAppend(a: string, b: string)
    requires WholeLines(a) && WholeLines(b)
    ensures WholeLines(a + b)
  {
  }

  lemma EndLines(open: bool, finished: string, duration: string)
    requires IsStamp(finished) && '\n' !in duration
    ensures var end := Concat(if open then [EndEntry(finished, duration)] else []);
            && Lines(end) == (if open then [EndLine(finished, duration)] else [])
            && WholeLines(end)
  {
    hide Lines, EndEntry, EndLine;
    NoEntries();
    if open {
      EndEntryLines(finished, duration);
      ConcatOne(EndEntry(finished, duration));
    }
  }

  lemma StartedLine(started: string)
    requires IsStamp(started)
    ensures Lines(StartedEntry(started)) == [DropCR("[Job] Started on " + started)] && WholeLines(StartedEntry(started))
  {
    hide Lines, DropCR;
    OneLine("[Job] Started on " + started);
  }

  lemma FinishedLines(finished: string, duration: string)
    requires IsStamp(finished) && '\n' !in duration
    ensures Lines(FinishedEntry(finished, duration))
            == ["", DropCR(FinishedText(finished, duration)), ""]
  {
    hide Lines, DropCR, FinishedText;
    var t := FinishedText(finished, duration);
    FinishedOnOneLine(finished, duration);
    EmptyLine();
    OneLine("");
    FirstLine("", t + "\n" + "\n");
    FirstLine(t, "\n");
    assert "" + "\n" == "\n";
    assert FinishedEntry(finished, duration) == "" + "\n" + (t + "\n" + "\n");
  }

  lemma FinishedOnOneLine(finished: string, duration: string)
    requires IsStamp(finished) && '\n' !in duration
    ensures '\n' !in FinishedText(finished, duration)
  {
  }
}
