/** The lines of a job log: how they are written, split and told apart. */
module LogText {
  import opened Text

  const STAGE_MARK := "[Pipeline] Stage: "
  const STEP_MARK := "[Pipeline] Step: "
  const TIME_MARK := "[TimeConsuming]"
  const JOB_MARK := "[Job]"

  /** A formatted time: opaque, but it starts with a digit and stays on one line. */
  predicate IsStamp(s: string) {
    s != "" && IsDigit(s[0]) && '\n' !in s
  }

  /** The prefix every `WriteLine` puts before its payload. */
  function Stamped(stamp: string, text: string): string {
    "[" + stamp + "] " + text
  }

  /** The text with exactly the newline `WriteLine` makes sure of. */
  function Terminated(text: string): string {
    if HasSuffix(text, "\n") then text else text + "\n"
  }

  // ---- from a file to its lines: `bufio.ScanLines` ----

  function DropCR(line: string): string {
    if line != "" && line[|line| - 1] == '\r' then line[..|line| - 1] else line
  }

  function Lines(s: string): seq<string>
    decreases |s|
  {
    if s == "" then []
    else
      var n := LineEnd(s);
      [DropCR(s[..n])] + if n == |s| then [] else Lines(s[n + 1..])
  }

  /** Where the first line ends: at a newline or at the end of the text. */
  function LineEnd(s: string): (n: nat)
    ensures n <= |s| && (n < |s| ==> s[n] == '\n') && '\n' !in s[..n]
  {
    if s == "" || s[0] == '\n' then 0
    else
      var n := 1 + LineEnd(s[1..]);
      assert s[..n] == [s[0]] + s[1..][..n - 1];
      n
  }

  lemma {:induction false} LineEndIs(t: string, rest: string)
    requires '\n' !in t
    ensures LineEnd(t + "\n" + rest) == |t|
  {
    var s := t + "\n" + rest;
    if t != "" {
      assert s[1..] == t[1..] + "\n" + rest;
      LineEndIs(t[1..], rest);
    }
  }

  /** A text that starts with a whole line. */
  lemma FirstLine(t: string, rest: string)
    requires '\n' !in t
    ensures Lines(t + "\n" + rest) == [DropCR(t)] + Lines(rest)
  {
    var s := t + "\n" + rest;
    LineEndIs(t, rest);
    assert s[..|t|] == t && s[|t| + 1..] == rest;
  }

  predicate WholeLines(s: string) {
    s == "" || s[|s| - 1] == '\n'
  }

  /** After whole lines, the lines of what follows come after theirs. */
  lemma {:induction false} LinesAppend(a: string, b: string)
    requires WholeLines(a)
    ensures Lines(a + b) == Lines(a) + Lines(b)
    decreases |a|
  {
    hide Lines, LineEnd, DropCR;
    if a == "" {
      assert a + b == b;
      NoLines();
    } else {
      var t, rest := TakeLine(a);
      assert a + b == t + "\n" + (rest + b);
      FirstLine(t, rest);
      FirstLine(t, rest + b);
      LinesAppend(rest, b);
    }
  }

  lemma NoLines()
    ensures Lines("") == []
  {
  }

  lemma TakeLine(a: string) returns (t: string, rest: string)
    requires WholeLines(a) && a != ""
    ensures a == t + "\n" + rest && '\n' !in t && WholeLines(rest) && |rest| < |a|
  {
    var n := LineEnd(a);
    assert a[|a| - 1] in a && a[..|a|] == a;
    t, rest := a[..n], a[n + 1..];
  }

  // ---- a payload of any number of lines ----

  /** The first line of what `WriteLine` makes of a payload. */
  function FirstPart(text: string): string {
    Terminated(text)[..LineEnd(Terminated(text))]
  }

  /** The lines after it, which get no time stamp. */
  function Continuation(text: string): seq<string> {
    var t, n := Terminated(text), LineEnd(Terminated(text));
    if n == |t| then [] else Lines(t[n + 1..])
  }

  /** The lines a payload becomes. */
  function WrittenLines(text: string, stamp: string): seq<string> {
    [Stamped(stamp, DropCR(FirstPart(text)))] + Continuation(text)
  }

  // ---- telling lines apart ----

  predicate IsSkipped(line: string) {
    HasPrefix(line, JOB_MARK) || line == "\n" || line == ""
  }

  predicate IsStage(line: string) {
    HasPrefix(line, STAGE_MARK)
  }

  predicate IsStep(line: string) {
    HasPrefix(line, STEP_MARK)
  }

  predicate IsTime(line: string) {
    HasPrefix(line, TIME_MARK)
  }

  function StageName(line: string): string {
    TrimPrefix(line, STAGE_MARK)
  }

  function StepName(line: string): string {
    TrimPrefix(line, STEP_MARK)
  }

  predicate IsPlain(line: string) {
    !IsSkipped(line) && !IsStage(line) && !IsStep(line) && !IsTime(line)
  }

  /** A text that differs from a mark in one place does not start with it. */
  lemma NotAMark(line: string, mark: string, i: nat)
    requires i < |line| && i < |mark| && line[i] != mark[i]
    ensures !HasPrefix(line, mark)
  {
    assert |mark| <= |line| ==> line[..|mark|][i] == line[i];
  }

  /** No payload makes a stamped line a marker. */
  lemma StampedLineIsPlain(stamp: string, text: string)
    requires IsStamp(stamp)
    ensures IsPlain(Stamped(stamp, text))
  {
    var line := Stamped(stamp, text);
    assert line[1] == stamp[0];
    NotAMark(line, JOB_MARK, 1);
    NotAMark(line, STAGE_MARK, 1);
    NotAMark(line, STEP_MARK, 1);
    NotAMark(line, TIME_MARK, 1);
  }

  /** Whatever the payload, its first line is stamped and therefore plain, and the rest follow as they are. */
  lemma PayloadLines(text: string, stamp: string)
    requires IsStamp(stamp)
    ensures var entry := Stamped(stamp, Terminated(text));
            && Lines(entry) == WrittenLines(text, stamp) && WholeLines(entry)
            && IsPlain(WrittenLines(text, stamp)[0])
  {
    hide Lines, IsPlain, DropCR, Stamped, LineEnd, Terminated;
    var first, rest := PayloadParts(text);
    StampedParts(stamp, first, rest);
    FirstLine(Stamped(stamp, first), rest);
    StampedDropsCR(stamp, first);
    StampedLineIsPlain(stamp, DropCR(first));
  }

  lemma PayloadParts(text: string) returns (first: string, rest: string)
    ensures Terminated(text) == first + "\n" + rest && '\n' !in first && WholeLines(rest)
    ensures FirstPart(text) == first && Continuation(text) == Lines(rest)
  {
    hide Lines;
    var t := Terminated(text);
    assert t[..|t|] == t && t[|t| - 1] == '\n';
    first, rest := t[..LineEnd(t)], t[LineEnd(t) + 1..];
  }

  lemma StampedParts(stamp: string, first: string, rest: string)
    requires IsStamp(stamp) && '\n' !in first && WholeLines(rest)
    ensures Stamped(stamp, first + "\n" + rest) == Stamped(stamp, first) + "\n" + rest
    ensures '\n' !in Stamped(stamp, first) && WholeLines(Stamped(stamp, first) + "\n" + rest)
  {
    assert Stamped(stamp, first + "\n" + rest) == Stamped(stamp, first) + "\n" + rest;
  }

  /** The lines a marker and a name become; a name of one line leaves just one. */
  function MarkedLines(mark: string, name: string): seq<string> {
    [mark + DropCR(FirstPart(name))] + Continuation(name)
  }

  predicate IsMark(mark: string) {
    '\n' !in mark && mark != "" && mark[|mark| - 1] != '\r'
  }

  lemma NameLines(mark: string, name: string)
    requires IsMark(mark)
    ensures Lines(Terminated(mark + name)) == MarkedLines(mark, name) && WholeLines(Terminated(mark + name))
  {
    hide Lines, DropCR, Terminated;
    var first, rest := PayloadParts(name);
    MarkedParts(mark, name, first, rest);
    FirstLine(mark + first, rest);
  }

  lemma MarkedParts(mark: string, name: string, first: string, rest: string)
    requires IsMark(mark) && Terminated(name) == first + "\n" + rest && '\n' !in first && WholeLines(rest)
    ensures Terminated(mark + name) == mark + first + "\n" + rest && WholeLines(mark + first + "\n" + rest)
    ensures '\n' !in mark + first && DropCR(mark + first) == mark + DropCR(first)
  {
    TerminatedAppend(mark, name);
    assert mark + (first + "\n" + rest) == mark + first + "\n" + rest;
    if first != "" {
      assert (mark + first)[|mark + first| - 1] == first[|first| - 1];
      assert (mark + first)[..|mark + first| - 1] == mark + first[..|first| - 1];
    } else {
      assert mark + first == mark;
    }
  }

  lemma TerminatedAppend(mark: string, name: string)
    requires IsMark(mark)
    ensures Terminated(mark + name) == mark + Terminated(name)
  {
    var s := mark + name;
    if name == "" {
      assert s == mark && s[|s| - 1] in mark;
    } else {
      assert s[|s| - 1] == name[|name| - 1];
      assert s[|s| - 1..] == [s[|s| - 1]] && name[|name| - 1..] == [name[|name| - 1]];
      assert s + "\n" == mark + (name + "\n");
    }
  }

  /** A name that is read as it was written. */
  predicate IsName(name: string) {
    '\n' !in name && (name != "" ==> name[|name| - 1] != '\r')
  }

  lemma NameIff(name: string)
    ensures IsName(name) ==> DropCR(FirstPart(name)) == name && Continuation(name) == []
    ensures DropCR(FirstPart(name)) == name <==> IsName(name)
  {
    hide Lines, LineEnd;
    var first, rest := PayloadParts(name);
    assert FirstPart(name) == first && Terminated(name) == first + "\n" + rest;
    if '\n' !in name {
      NoNewlineParts(name, first, rest);
      NoLines();
    } else {
      assert '\n' !in DropCR(first);
    }
  }

  lemma NoNewlineParts(name: string, first: string, rest: string)
    requires '\n' !in name && Terminated(name) == first + "\n" + rest && '\n' !in first
    ensures first == name && rest == ""
  {
    hide LineEnd;
    var t := Terminated(name);
    assert name != "" ==> name[|name| - 1] in name;
    assert t == name + "\n" + "";
    LineEndIs(name, "");
    LineEndIs(first, rest);
    assert first == t[..|first|] == name;
  }

  lemma StampedDropsCR(stamp: string, text: string)
    ensures DropCR(Stamped(stamp, text)) == Stamped(stamp, DropCR(text))
  {
    var line := Stamped(stamp, text);
    if text == "" {
      assert line[|line| - 1] == ' ';
    } else {
      assert line[|line| - 1] == text[|text| - 1];
      assert line[..|line| - 1] == Stamped(stamp, text[..|text| - 1]);
    }
  }

  /** The kinds of lines exclude each other. */
  lemma MarksDiffer(line: string)
    ensures IsStep(line) ==> !IsSkipped(line) && !IsTime(line) && !IsStage(line)
    ensures IsTime(line) ==> !IsSkipped(line) && !IsStage(line)
  {
    if IsStep(line) {
      assert line[..|STEP_MARK|][1] == 'P' && line[..|STEP_MARK|][13] == 'e';
      NotAMark(line, JOB_MARK, 1);
      NotAMark(line, TIME_MARK, 1);
      NotAMark(line, STAGE_MARK, 13);
    }
    if IsTime(line) {
      assert line[..|TIME_MARK|][1] == 'T';
      NotAMark(line, JOB_MARK, 1);
      NotAMark(line, STAGE_MARK, 1);
    }
  }

  lemma AppendedMark(mark: string, name: string)
    ensures HasPrefix(mark + name, mark) && TrimPrefix(mark + name, mark) == name
  {
    assert (mark + name)[..|mark|] == mark;
  }

  lemma StageLine(name: string)
    ensures IsStage(STAGE_MARK + name) && StageName(STAGE_MARK + name) == name
    ensures !IsSkipped(STAGE_MARK + name) && !IsStep(STAGE_MARK + name) && !IsTime(STAGE_MARK + name)
  {
    var line := STAGE_MARK + name;
    AppendedMark(STAGE_MARK, name);
    assert line[1] == 'P' && line[13] == 'a';
    NotAMark(line, JOB_MARK, 1);
    NotAMark(line, TIME_MARK, 1);
    NotAMark(line, STEP_MARK, 13);
  }

  lemma StepLine(name: string)
    ensures IsStep(STEP_MARK + name) && StepName(STEP_MARK + name) == name
    ensures !IsSkipped(STEP_MARK + name) && !IsStage(STEP_MARK + name) && !IsTime(STEP_MARK + name)
  {
    var line := STEP_MARK + name;
    AppendedMark(STEP_MARK, name);
    assert line[1] == 'P' && line[13] == 'e';
    NotAMark(line, JOB_MARK, 1);
    NotAMark(line, TIME_MARK, 1);
    NotAMark(line, STAGE_MARK, 13);
  }

  lemma TimeLine(text: string)
    ensures IsTime(TIME_MARK + text) && !IsSkipped(TIME_MARK + text) && !IsStage(TIME_MARK + text)
            && !IsStep(TIME_MARK + text)
  {
    var line := TIME_MARK + text;
    AppendedMark(TIME_MARK, text);
    assert line[1] == 'T';
    NotAMark(line, JOB_MARK, 1);
    NotAMark(line, STAGE_MARK, 1);
    NotAMark(line, STEP_MARK, 1);
  }
}
