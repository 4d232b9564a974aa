/** `Output`: a buffer of log entries with a cursor for the file and one for the reader. A flush and
    the move of its cursor are one step, and writing to an open file succeeds. */
module LogWriter {
  import opened Results
  import opened LogText
  import opened Sequences

  datatype LogFile = Missing | Open(content: string) | Closed(content: string)

  function Concat(entries: seq<string>): string {
    if entries == [] then "" else Concat(entries[..|entries| - 1]) + entries[|entries| - 1]
  }

  lemma {:induction false} ConcatAppend(a: seq<string>, b: seq<string>)
    ensures Concat(a + b) == Concat(a) + Concat(b)
    decreases |b|
  {
    if b == [] {
      assert a + b == a;
    } else {
      var c := b[..|b| - 1];
      assert (a + b)[..|a + b| - 1] == a + c;
      ConcatAppend(a, c);
      assert Concat(a + b) == Concat(a) + (Concat(c) + b[|b| - 1]);
    }
  }

  lemma FlushRest(initial: string, buffer: seq<string>, cursor: nat)
    requires cursor <= |buffer|
    ensures initial + Concat(buffer[..cursor]) + Concat(buffer[cursor..]) == initial + Concat(buffer)
  {
    hide Concat;
    ConcatAppend(buffer[..cursor], buffer[cursor..]);
    assert buffer[..cursor] + buffer[cursor..] == buffer;
    Regroup(initial, Concat(buffer[..cursor]), Concat(buffer[cursor..]));
  }

  // ---- the entries of each operation ----

  function StartedEntry(stamp: string): string {
    Terminated("[Job] Started on " + stamp)
  }

  function FinishedText(stamp: string, duration: string): string {
    "[Job] Finished on " + (stamp + ", Duration: " + duration)
  }

  function FinishedEntry(stamp: string, duration: string): string {
    "\n" + FinishedText(stamp, duration) + "\n\n"
  }

  function EndEntry(stamp: string, duration: string): string {
    Terminated(TIME_MARK + (" EndTime: " + stamp + ", Duration: " + duration))
  }

  function StageEntries(name: string, stamp: string): seq<string> {
    ["\n", Terminated(STAGE_MARK + name), Terminated(TIME_MARK + (" StartTime: " + stamp))]
  }

  function LineEntry(text: string, stamp: string): string {
    Stamped(stamp, Terminated(text))
  }

  function StepEntry(name: string): string {
    Terminated(STEP_MARK + name)
  }

  class Output {
    var buffer: seq<string>
    var fileCursor: nat
    var endIndex: nat
    var bufferCursor: nat
    var stageDone: map<string, bool>
    var done: bool
    var f: LogFile
    ghost var initial: string

    /** The file holds what it held before and the flushed part of the buffer, each entry once; after
        `Done`, everything written up to then and the finish line. */
    ghost predicate Valid()
      reads this
    {
      && fileCursor == endIndex <= |buffer|
      && bufferCursor <= |buffer|
      && (f.Open? ==> f.content == initial + Concat(buffer[..fileCursor]))
      && (f.Closed? ==> done)
      && AtMostOneOpen()
    }

    ghost predicate AtMostOneOpen()
      reads this`stageDone
    {
      forall a, b :: a in stageDone && b in stageDone && !stageDone[a] && !stageDone[b] ==> a == b
    }

    ghost predicate HasOpenStage()
      reads this`stageDone
    {
      exists n :: n in stageDone && !stageDone[n]
    }

    /** `file` is what opening the log for appending finds; without a file nothing is started. */
    constructor (file: Option<string>, stamp: string)
      ensures Valid() && !HasOpenStage() && !done
      ensures fileCursor == bufferCursor == 0
      ensures file.None? ==> f == Missing && buffer == []
      ensures file.Some? ==> f == Open(file.value) && initial == file.value && buffer == [StartedEntry(stamp)]
    {
      fileCursor, endIndex, bufferCursor, stageDone, done := 0, 0, 0, map[], false;
      if file.None? {
        f, initial, buffer := Missing, "", [];
      } else {
        f, initial, buffer := Open(file.value), file.value, [StartedEntry(stamp)];
      }
    }

    method WriteLineWithNoTime(line: string)
      requires Valid()
      modifies this`buffer
      ensures Valid() && buffer == old(buffer) + [Terminated(line)]
    {
      assert (buffer + [Terminated(line)])[..fileCursor] == buffer[..fileCursor];
      buffer := buffer + [Terminated(line)];
    }

    method WriteLine(line: string, stamp: string)
      requires Valid()
      modifies this`buffer
      ensures Valid() && buffer == old(buffer) + [LineEntry(line, stamp)]
    {
      assert (buffer + [LineEntry(line, stamp)])[..fileCursor] == buffer[..fileCursor];
      buffer := buffer + [Stamped(stamp, Terminated(line))];
    }

    method NewStep(name: string)
      requires Valid()
      modifies this`buffer
      ensures Valid() && buffer == old(buffer) + [StepEntry(name)]
    {
      WriteLineWithNoTime(STEP_MARK + name);
    }

    /** Ends the stage that is still open, if any. */
    method EndStages(stamp: string, duration: string)
      requires Valid()
      modifies this`buffer, this`stageDone
      ensures Valid() && !HasOpenStage()
      ensures stageDone.Keys == old(stageDone).Keys
      ensures buffer == old(buffer) + if old(HasOpenStage()) then [EndEntry(stamp, duration)] else []
    {
      ghost var before := stageDone;
      var pending := stageDone.Keys;
      while pending != {}
        invariant Valid() && pending <= stageDone.Keys == before.Keys
        invariant forall n :: n in pending ==> stageDone[n] == before[n]
        invariant forall n :: n in stageDone && n !in pending ==> stageDone[n]
        invariant buffer == old(buffer)
                            + if exists n :: n in before && n !in pending && !before[n]
                              then [EndEntry(stamp, duration)] else []
        decreases pending
      {
        var k :| k in pending;
        pending := pending - {k};
        if !stageDone[k] {
          stageDone := stageDone[k := true];
          WriteLineWithNoTime(TIME_MARK + (" EndTime: " + stamp + ", Duration: " + duration));
        }
      }
    }

    method NewStage(name: string, endStamp: string, duration: string, stamp: string)
      requires Valid()
      modifies this`buffer, this`stageDone
      ensures Valid() && HasOpenStage()
      ensures stageDone.Keys == old(stageDone).Keys + {name} && !stageDone[name]
      ensures buffer
              == old(buffer) + (if old(HasOpenStage()) then [EndEntry(endStamp, duration)] else [])
                 + StageEntries(name, stamp)
    {
      EndStages(endStamp, duration);
      WriteLineWithNoTime("\n");
      WriteLineWithNoTime(STAGE_MARK + name);
      WriteLineWithNoTime(TIME_MARK + (" StartTime: " + stamp));
      stageDone := stageDone[name := false];
      assert name in stageDone && !stageDone[name];
    }

    method Flush(arr: seq<string>)
      modifies this`f
      ensures f == if old(f).Open? then Open(old(f).content + Concat(arr)) else old(f)
    {
      for i := 0 to |arr|
        invariant f == if old(f).Open? then Open(old(f).content + Concat(arr[..i])) else old(f)
      {
        assert arr[..i + 1][..i] == arr[..i];
        if f.Open? {
          f := Open(f.content + arr[i]);
        }
      }
      assert arr[..|arr|] == arr;
    }

    /** One turn of the goroutine that flushes. */
    method TimedWrite()
      requires Valid()
      modifies this`f, this`fileCursor, this`endIndex
      ensures Valid()
      ensures if old(done) then f == old(f) && fileCursor == old(fileCursor) else fileCursor == |buffer|
      ensures f.Open? == old(f.Open?) && (old(f).Missing? ==> f.Missing?)
    {
      if done {
        return;
      }
      if |buffer| <= endIndex {
        return;
      }
      endIndex := |buffer|;
      hide Concat;
      FlushRest(initial, buffer, fileCursor);
      assert buffer[..endIndex] == buffer && buffer[fileCursor..endIndex] == buffer[fileCursor..];
      Flush(buffer[fileCursor..endIndex]);
      fileCursor := endIndex;
    }

    /** The rest of the buffer and the finish line go to the file, and the file is closed. */
    method Done(stamp: string, duration: string)
      requires Valid()
      modifies this
      ensures Valid() && done && !HasOpenStage()
      ensures buffer == old(buffer) + if old(HasOpenStage()) then [EndEntry(stamp, duration)] else []
      ensures initial == old(initial)
      ensures old(f).Open? ==> f == Closed(initial + Concat(buffer) + FinishedEntry(stamp, duration))
      ensures !old(f).Open? ==> f == old(f)
    {
      hide EndEntry, FinishedEntry, Concat;
      EndStages(stamp, duration);
      done := true;
      FlushRest(initial, buffer, fileCursor);
      Flush(buffer[fileCursor..]);
      Flush([FinishedEntry(stamp, duration)]);
      ConcatOne(FinishedEntry(stamp, duration));
      if f.Open? {
        f := Closed(f.content);
      }
    }

    /** Everything written so far; the reader has now seen all of it. */
    method Content() returns (r: string)
      requires Valid()
      modifies this`bufferCursor
      ensures Valid() && r == Concat(buffer) && bufferCursor == |buffer|
    {
      bufferCursor := |buffer|;
      assert buffer[..bufferCursor] == buffer;
      r := Concat(buffer[..bufferCursor]);
    }

    /** What was written since the reader last looked. */
    method NewContent() returns (r: string)
      requires Valid()
      modifies this`bufferCursor
      ensures Valid() && bufferCursor == |buffer|
      ensures r == Concat(buffer[old(bufferCursor)..])
    {
      if bufferCursor >= |buffer| {
        assert buffer[bufferCursor..] == [];
        return "";
      }
      var endIndex := |buffer|;
      assert buffer[bufferCursor..endIndex] == buffer[bufferCursor..];
      r := Concat(buffer[bufferCursor..endIndex]);
      bufferCursor := endIndex;
    }
  }

  lemma ConcatOne(e: string)
    ensures Concat([e]) == e
  {
    assert [e][..0] == [];
  }

  // ---- reading while writing ----

  datatype ReadOp = Write(entry: string) | ReadNew

  /** The buffer after a run of writes and reads. */
  function Written(buffer: seq<string>, ops: seq<ReadOp>): seq<string> {
    if ops == [] then buffer
    else
      var op := ops[|ops| - 1];
      Written(buffer, ops[..|ops| - 1]) + if op.Write? then [op.entry] else []
  }

  /** The reader's cursor after it: the length of the buffer at the last read. */
  function SeenUpTo(buffer: seq<string>, cursor: nat, ops: seq<ReadOp>): (n: nat)
    requires cursor <= |buffer|
    ensures n <= |Written(buffer, ops)|
  {
    if ops == [] then cursor
    else if ops[|ops| - 1].ReadNew? then |Written(buffer, ops)|
    else SeenUpTo(buffer, cursor, ops[..|ops| - 1])
  }

  /** What the reads of the run returned, put together. */
  function ReadBack(buffer: seq<string>, cursor: nat, ops: seq<ReadOp>): string
    requires cursor <= |buffer|
  {
    if ops == [] then ""
    else
      var past := ops[..|ops| - 1];
      ReadBack(buffer, cursor, past)
      + if ops[|ops| - 1].ReadNew? then Concat(Written(buffer, past)[SeenUpTo(buffer, cursor, past)..]) else ""
  }

  /** Reads return the buffer in order, without loss or repetition, from where the reader was. */
  lemma {:induction false} ReadsAreLossless(buffer: seq<string>, cursor: nat, ops: seq<ReadOp>)
    requires cursor <= |buffer|
    ensures cursor <= SeenUpTo(buffer, cursor, ops)
    ensures ReadBack(buffer, cursor, ops) == Concat(Written(buffer, ops)[cursor..SeenUpTo(buffer, cursor, ops)])
  {
    hide Concat;
    if ops == [] {
      NothingRead(buffer, cursor);
    } else {
      var past := ops[..|ops| - 1];
      ReadsAreLossless(buffer, cursor, past);
      var w, n := Written(buffer, past), SeenUpTo(buffer, cursor, past);
      if ops[|ops| - 1].ReadNew? {
        ConcatAppend(w[cursor..n], w[n..]);
        assert w[cursor..n] + w[n..] == w[cursor..|w|];
        assert w + [] == w;
      } else {
        assert (w + [ops[|ops| - 1].entry])[cursor..n] == w[cursor..n];
      }
    }
  }

  lemma NothingRead(buffer: seq<string>, cursor: nat)
    requires cursor <= |buffer|
    ensures Concat(buffer[cursor..cursor]) == ""
  {
  }
}
