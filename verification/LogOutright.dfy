/** The log in its own letters: what a run leaves in the file, what its lines must not look like to be read back, and
    how a step's content holds its lines. */
module LogOutright {
  import opened Results
  import opened Text
  import opened LogText
  import opened LogWriter
  import opened LogParser
  import opened LogRoundTrip

  // ---- what is written ----

  lemma WithNewline(t: string)
    requires '\n' !in t
    ensures Terminated(t) == t + "\n" && Terminated(t + "\n") == t + "\n"
  {
    assert t != "" ==> t[|t| - 1] in t;
    assert (t + "\n")[|t|..] == "\n";
  }

  /** The file after a run of one stage with one step that wrote one line. */
  lemma FileOfOneLine(stage: string, step: string, line: string, stamp: string, started: string, finished: string,
                      duration: string)
    requires '\n' !in stage && '\n' !in step && '\n' !in line
    requires '\n' !in stamp && '\n' !in started && '\n' !in finished && '\n' !in duration
    ensures FileText([NewStage(stage, stamp, duration, stamp), NewStep(step), WriteLine(line, stamp)],
                     started, finished, duration)
            == "[Job] Started on " + started + "\n"
               + "\n" + ("[Pipeline] Stage: " + stage + "\n")
               + ("[TimeConsuming] StartTime: " + stamp + "\n")
               + ("[Pipeline] Step: " + step + "\n")
               + ("[" + stamp + "] " + line + "\n")
               + ("[TimeConsuming] EndTime: " + finished + ", Duration: " + duration + "\n")
               + ("\n[Job] Finished on " + finished + ", Duration: " + duration + "\n\n")
  {
    hide Terminated, Stamped, Concat;
    var a, b, c := NewStage(stage, stamp, duration, stamp), NewStep(step), WriteLine(line, stamp);
    EntriesOfThree(a, b, c);
    OneEntry(stage, step, line, stamp, started, finished, duration);
    var es := [StartedEntry(started)] + (StageEntries(stage, stamp) + [StepEntry(step), LineEntry(line, stamp)])
              + [EndEntry(finished, duration)];
    var texts := StageEntries(stage, stamp);
    assert es == [StartedEntry(started), texts[0], texts[1], texts[2], StepEntry(step), LineEntry(line, stamp),
                  EndEntry(finished, duration)];
    ConcatSeven(es);
  }

  lemma OneEntry(stage: string, step: string, line: string, stamp: string, started: string, finished: string,
                 duration: string)
    requires '\n' !in stage && '\n' !in step && '\n' !in line
    requires '\n' !in stamp && '\n' !in started && '\n' !in finished && '\n' !in duration
    ensures StartedEntry(started) == "[Job] Started on " + started + "\n"
    ensures StageEntries(stage, stamp) == ["\n", "[Pipeline] Stage: " + stage + "\n",
                                           "[TimeConsuming] StartTime: " + stamp + "\n"]
    ensures StepEntry(step) == "[Pipeline] Step: " + step + "\n"
    ensures LineEntry(line, stamp) == "[" + stamp + "] " + line + "\n"
    ensures EndEntry(finished, duration) == "[TimeConsuming] EndTime: " + finished + ", Duration: " + duration + "\n"
    ensures FinishedEntry(finished, duration) == "\n[Job] Finished on " + finished + ", Duration: " + duration + "\n\n"
  {
    hide Terminated, StartedEntry, StageEntries, StepEntry, LineEntry, EndEntry, FinishedEntry, FinishedText;
    JobEntries(started, finished, duration);
    StageEntriesAre(stage, stamp);
    StepAndLineEntry(step, line, stamp);
    EndEntryIs(finished, duration);
  }

  lemma JobEntries(started: string, finished: string, duration: string)
    requires '\n' !in started
    ensures StartedEntry(started) == "[Job] Started on " + started + "\n"
    ensures FinishedEntry(finished, duration) == "\n[Job] Finished on " + finished + ", Duration: " + duration + "\n\n"
  {
    hide Terminated;
    WithNewline("[Job] Started on " + started);
    assert "[Job] Finished on " + (finished + ", Duration: " + duration)
        == "[Job] Finished on " + finished + ", Duration: " + duration;
  }

  lemma StageEntriesAre(stage: string, stamp: string)
    requires '\n' !in stage && '\n' !in stamp
    ensures StageEntries(stage, stamp) == ["\n", "[Pipeline] Stage: " + stage + "\n",
                                           "[TimeConsuming] StartTime: " + stamp + "\n"]
  {
    hide Terminated;
    WithNewline("[Pipeline] Stage: " + stage);
    WithNewline("[TimeConsuming] StartTime: " + stamp);
    assert TIME_MARK + (" StartTime: " + stamp) == "[TimeConsuming] StartTime: " + stamp;
  }

  lemma StepAndLineEntry(step: string, line: string, stamp: string)
    requires '\n' !in step && '\n' !in line
    ensures StepEntry(step) == "[Pipeline] Step: " + step + "\n"
    ensures LineEntry(line, stamp) == "[" + stamp + "] " + line + "\n"
  {
    hide Terminated;
    WithNewline("[Pipeline] Step: " + step);
    WithNewline(line);
  }

  lemma EndEntryIs(finished: string, duration: string)
    requires '\n' !in finished && '\n' !in duration
    ensures EndEntry(finished, duration) == "[TimeConsuming] EndTime: " + finished + ", Duration: " + duration + "\n"
  {
    hide Terminated;
    WithNewline("[TimeConsuming] EndTime: " + finished + ", Duration: " + duration);
    assert TIME_MARK + (" EndTime: " + finished + ", Duration: " + duration)
        == "[TimeConsuming] EndTime: " + finished + ", Duration: " + duration;
  }

  lemma EntriesOfThree(a: LogOp, b: LogOp, c: LogOp)
    requires a.NewStage? && b.NewStep? && c.WriteLine?
    ensures Entries([a, b, c]) == StageEntries(a.name, a.stamp) + [StepEntry(b.name), LineEntry(c.text, c.stamp)]
    ensures CurrentOf([a, b, c]).Some?
  {
    hide StageEntries, StepEntry, LineEntry;
    assert [a, b, c][..2] == [a, b] && [a, b][..1] == [a] && [a][..0] == [];
    assert Entries([a]) == StageEntries(a.name, a.stamp);
  }

  lemma ConcatSeven(es: seq<string>)
    requires |es| == 7
    ensures Concat(es) == es[0] + es[1] + es[2] + es[3] + es[4] + es[5] + es[6]
  {
    hide Concat;
    ConcatLast(es);
    ConcatLast(es[..6]);
    ConcatLast(es[..5]);
    ConcatLast(es[..4]);
    ConcatLast(es[..3]);
    ConcatLast(es[..2]);
    ConcatOne(es[0]);
    assert es[..6][..5] == es[..5] && es[..5][..4] == es[..4] && es[..4][..3] == es[..3];
    assert es[..3][..2] == es[..2] && es[..2][..1] == [es[0]];
  }

  lemma ConcatLast(es: seq<string>)
    requires es != []
    ensures Concat(es) == Concat(es[..|es| - 1]) + es[|es| - 1]
  {
  }

  // ---- what is read back ----

  /** What must hold for stages, steps and lines to be read back, in letters. */
  lemma SurvivalInLetters(ops: seq<LogOp>)
    ensures StagesSurvive(ops) <==> forall i :: 0 <= i < |ops| ==> StageInLetters(ops[i])
    ensures StepsSurvive(ops) <==> forall i :: 0 <= i < |ops| ==> StepInLetters(ops[i])
    ensures LinesSurvive(ops) <==> forall i :: 0 <= i < |ops| ==> LinesInLetters(ops[i])
  {
    hide Continuation, HasPrefix, StageSurvives, StepSurvives, AllVisible;
    forall i | 0 <= i < |ops|
      ensures StageInLetters(ops[i]) <==> StageSurvives(ops[i])
      ensures StepInLetters(ops[i]) <==> StepSurvives(ops[i])
      ensures LinesInLetters(ops[i]) <==> (ops[i].WriteLine? ==> AllVisible(Continuation(ops[i].text)))
    {
      OpInLetters(ops[i]);
    }
  }

  ghost predicate StageInLetters(op: LogOp) {
    match op
    case NewStage(name, _, _, _) => '\n' !in name && (name != "" ==> name[|name| - 1] != '\r')
    case NewStep(name) => forall l :: l in Continuation(name) ==> !HasPrefix(l, "[Pipeline] Stage: ")
    case WriteLine(text, _) => forall l :: l in Continuation(text) ==> !HasPrefix(l, "[Pipeline] Stage: ")
  }

  ghost predicate StepInLetters(op: LogOp) {
    match op
    case NewStage(_, _, _, _) => true
    case NewStep(name) => '\n' !in name && (name != "" ==> name[|name| - 1] != '\r')
    case WriteLine(text, _) => forall l :: l in Continuation(text) ==> !HasPrefix(l, "[Pipeline] Step: ")
  }

  ghost predicate LinesInLetters(op: LogOp) {
    op.WriteLine? ==> forall l :: l in Continuation(op.text) ==>
                        l != "" && !HasPrefix(l, "[Job]") && !HasPrefix(l, "[TimeConsuming]")
  }

  lemma OpInLetters(op: LogOp)
    ensures StageInLetters(op) <==> StageSurvives(op)
    ensures StepInLetters(op) <==> StepSurvives(op)
    ensures LinesInLetters(op) <==> (op.WriteLine? ==> AllVisible(Continuation(op.text)))
  {
    hide Continuation, HasPrefix, AllVisible, NoStage, NoStep;
    match op
    case NewStage(_, _, _, _) =>
    case NewStep(name) => MarksInLetters(Continuation(name));
    case WriteLine(text, _) =>
      MarksInLetters(Continuation(text));
      ContinuationIsLines(text);
      VisibleInLetters(Continuation(text));
  }

  lemma ContinuationIsLines(text: string)
    ensures forall i :: 0 <= i < |Continuation(text)| ==> Continuation(text)[i] != "\n"
  {
    hide Lines, LineEnd;
    var t, n := Terminated(text), LineEnd(Terminated(text));
    if n < |t| { LinesAreOneLine(t[n + 1..]); }
  }

  lemma MarksInLetters(lines: seq<string>)
    ensures NoStage(lines) <==> forall l :: l in lines ==> !HasPrefix(l, "[Pipeline] Stage: ")
    ensures NoStep(lines) <==> forall l :: l in lines ==> !HasPrefix(l, "[Pipeline] Step: ")
  {
    hide HasPrefix;
    forall l ensures HasPrefix(l, STAGE_MARK) ==> !IsSkipped(l) {
      StageIsNotSkipped(l);
    }
  }

  lemma VisibleInLetters(lines: seq<string>)
    requires forall i :: 0 <= i < |lines| ==> lines[i] != "\n"
    ensures AllVisible(lines) <==>
            forall l :: l in lines ==> l != "" && !HasPrefix(l, "[Job]") && !HasPrefix(l, "[TimeConsuming]")
  {
    hide HasPrefix;
    forall i | 0 <= i < |lines|
      ensures !IsSkipped(lines[i]) && !IsTime(lines[i]) <==>
              lines[i] != "" && !HasPrefix(lines[i], "[Job]") && !HasPrefix(lines[i], "[TimeConsuming]")
    {
    }
    assert forall i :: 0 <= i < |lines| ==> lines[i] in lines;
  }

  lemma StageIsNotSkipped(l: string)
    ensures HasPrefix(l, STAGE_MARK) ==> !IsSkipped(l)
  {
    if HasPrefix(l, STAGE_MARK) {
      assert l == STAGE_MARK + l[|STAGE_MARK|..];
      StageLine(l[|STAGE_MARK|..]);
    }
  }

  // ---- the content of a step ----

  lemma {:induction false} LinesAreOneLine(s: string)
    ensures forall i :: 0 <= i < |Lines(s)| ==> '\n' !in Lines(s)[i]
    decreases |s|
  {
    hide LineEnd;
    if s != "" && LineEnd(s) < |s| {
      LinesAreOneLine(s[LineEnd(s) + 1..]);
    }
  }

  lemma {:induction false} BucketIsOfLines(lines: seq<string>, n: string)
    requires forall i :: 0 <= i < |lines| ==> '\n' !in lines[i]
    ensures forall i :: 0 <= i < |Bucket(lines, n)| ==> '\n' !in Bucket(lines, n)[i]
  {
    hide IsSkipped, IsStage, StageName, CurrentStage;
    if lines != [] {
      BucketIsOfLines(lines[..|lines| - 1], n);
    }
  }

  lemma {:induction false} StepBucketIsOfLines(lines: seq<string>, n: string)
    requires forall i :: 0 <= i < |lines| ==> '\n' !in lines[i]
    ensures forall i :: 0 <= i < |StepBucket(lines, n)| ==> '\n' !in StepBucket(lines, n)[i]
  {
    hide IsTime, IsStep, StepName, CurrentStep;
    if lines != [] {
      StepBucketIsOfLines(lines[..|lines| - 1], n);
    }
  }

  /** The content given for a step of a log file is its lines, one after the other, and nothing else. */
  lemma ContentIsLines(file: string, stage: string, step: string)
    ensures var s := StepOf(Bucket(Lines(file), stage), step);
            s.lines == StepBucket(Bucket(Lines(file), stage), step)
            && if s.lines == [] then s.content == "" else Split(s.content, '\n') == s.lines
  {
    hide Lines, Bucket, StepBucket, Split, Join;
    LinesAreOneLine(file);
    BucketIsOfLines(Lines(file), stage);
    StepBucketIsOfLines(Bucket(Lines(file), stage), step);
    var lines := StepBucket(Bucket(Lines(file), stage), step);
    if lines != [] { SplitJoin(lines, '\n'); } else { JoinNothing(); }
  }

  lemma JoinNothing()
    ensures Join([], '\n') == ""
  {
  }
}
