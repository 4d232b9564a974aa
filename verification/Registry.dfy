/** Which cancel function and which step timer belong to which job: the executor's two maps as a
    state machine over the atomic steps of concurrent runs, cancels and timer sweeps. */
module Registry {
  import opened Results
  import opened Text
  import opened JobKeys
  import opened Model

  /** Thirty minutes, in nanoseconds. */
  const STEP_TIMEOUT := 30 * 60 * 1_000_000_000

  /** `token` stands for the cancel function a run creates. */
  datatype Op =
    | Begin(name: string, id: Int64, token: nat)
    | SetTimer(name: string, id: Int64, now: int)
    | Abort(name: string, id: Int64, token: nat)
    | End(name: string, id: Int64, status: Status)
    | Reject(name: string, id: Int64)
    | Report(name: string, id: Int64, status: Status)
    | CancelJob(name: string, id: Int64)
    | VisitTimer(key: string, now: int)

  datatype State = State(
    cancels: map<string, nat>,
    timers: map<string, int>,
    sent: seq<StatusMessage>,
    called: seq<nat>)

  const Empty := State(map[], map[], [], [])

  function Cancel(s: State, name: string, id: Int64): State {
    var key := CancelKey(name, id);
    s.(cancels := s.cancels - {key},
       called := s.called + (if key in s.cancels then [s.cancels[key]] else []),
       sent := s.sent + [StatusMessage(name, id, Stop)])
  }

  predicate TimedOut(started: int, now: int) {
    now - started > STEP_TIMEOUT
  }

  /** One visit of the timer sweep; a key that does not decode is left in place. */
  function Visit(s: State, key: string, now: int): State {
    if key in s.timers && TimedOut(s.timers[key], now) then
      match GetJobNameAndIDFromFormatString(key)
      case None => s
      case Some((name, id)) => Cancel(s, name, id).(timers := s.timers - {key})
    else
      s
  }

  /** A run whose stage failed calls its own cancel function, whatever the map holds by then. A finished run deletes
      the entry under its bare name, sends its status and drops its timer. */
  function Apply(s: State, op: Op): State {
    match op
    case Begin(name, id, token) => s.(cancels := s.cancels[CancelKey(name, id) := token])
    case SetTimer(name, id, now) => s.(timers := s.timers[FormatJobToString(name, id) := now])
    case Abort(_, _, token) => s.(called := s.called + [token])
    case End(name, id, status) =>
      s.(cancels := s.cancels - {name},
         timers := s.timers - {FormatJobToString(name, id)},
         sent := s.sent + [StatusMessage(name, id, status)])
    case Reject(name, id) =>
      s.(timers := s.timers - {FormatJobToString(name, id)}, sent := s.sent + [StatusMessage(name, id, NotRun)])
    case Report(name, id, status) => s.(sent := s.sent + [StatusMessage(name, id, status)])
    case CancelJob(name, id) => Cancel(s, name, id)
    case VisitTimer(key, now) => Visit(s, key, now)
  }

  function Run(ops: seq<Op>): State {
    if ops == [] then Empty else Apply(Run(ops[..|ops| - 1]), ops[|ops| - 1])
  }

  lemma RunSnoc(ops: seq<Op>, op: Op)
    ensures Run(ops + [op]) == Apply(Run(ops), op)
  {
    assert (ops + [op])[..|ops|] == ops;
  }

  function Lookup<T>(m: map<string, T>, k: string): Option<T> {
    if k in m then Some(m[k]) else None
  }

  // ---- the same facts read off the history of operations, job by job ----

  /** When the current step of a job started, by the history alone. */
  function TimerAt(ops: seq<Op>, n: string, i: Int64): Option<int>
    decreases |ops|, 0
  {
    if ops == [] then None
    else
      var past := ops[..|ops| - 1];
      match ops[|ops| - 1]
      case SetTimer(m, j, now) => if m == n && j == i then Some(now) else TimerAt(past, n, i)
      case End(m, j, _) => if m == n && j == i then None else TimerAt(past, n, i)
      case Reject(m, j) => if m == n && j == i then None else TimerAt(past, n, i)
      case VisitTimer(key, now) => if Expires(past, key, now, n, i) then None else TimerAt(past, n, i)
      case _ => TimerAt(past, n, i)
  }

  /** The visit of `key` finds the step of job `(n, i)` overdue; names with a '(' are never found. */
  predicate Expires(past: seq<Op>, key: string, now: int, n: string, i: Int64)
    decreases |past|, 1
  {
    && key == FormatJobToString(n, i) && '(' !in n
    && TimerAt(past, n, i).Some? && TimedOut(TimerAt(past, n, i).value, now)
  }

  /** The cancel function of the latest run of a job, unless it was cancelled or timed out since, or
      a job whose name is this job's cancel key has finished since. */
  function RegisteredAt(ops: seq<Op>, n: string, i: Int64): Option<nat> {
    if ops == [] then None
    else
      var past := ops[..|ops| - 1];
      match ops[|ops| - 1]
      case Begin(m, j, token) => if m == n && j == i then Some(token) else RegisteredAt(past, n, i)
      case CancelJob(m, j) => if m == n && j == i then None else RegisteredAt(past, n, i)
      case VisitTimer(key, now) => if Expires(past, key, now, n, i) then None else RegisteredAt(past, n, i)
      case End(m, _, _) => if m == CancelKey(n, i) then None else RegisteredAt(past, n, i)
      case _ => RegisteredAt(past, n, i)
  }

  // ---- the maps agree with the history ----

  ghost predicate KeysAreFormatted(s: State) {
    forall k :: k in s.timers ==> IsFormatted(k)
  }

  ghost predicate IsFormatted(k: string) {
    exists n: string, i: Int64 :: k == FormatJobToString(n, i)
  }

  lemma {:induction false} TimerKeysAreFormatted(ops: seq<Op>)
    ensures KeysAreFormatted(Run(ops))
  {
    hide FormatJobToString, GetJobNameAndIDFromFormatString, TimedOut;
    if ops != [] {
      TimerKeysAreFormatted(ops[..|ops| - 1]);
      var op := ops[|ops| - 1];
      if op.SetTimer? {
        assert IsFormatted(FormatJobToString(op.name, op.id));
      }
    }
  }

  /** A visit acts on a job exactly when its key is that job's and the timer is overdue. */
  lemma VisitDecodes(s: State, key: string, now: int) returns (m: string, j: Int64)
    requires KeysAreFormatted(s) && key in s.timers && TimedOut(s.timers[key], now)
    ensures key == FormatJobToString(m, j)
    ensures Visit(s, key, now) == if '(' in m then s else Cancel(s, m, j).(timers := s.timers - {key})
  {
    hide FormatJobToString, GetJobNameAndIDFromFormatString, Cancel;
    assert IsFormatted(key);
    m, j :| key == FormatJobToString(m, j);
    DecodeFormatted(m, j);
  }

  /** After any history of operations, both maps hold for every job what the history says. */
  lemma {:induction false} MapsFollowHistory(ops: seq<Op>, n: string, i: Int64)
    ensures Lookup(Run(ops).timers, FormatJobToString(n, i)) == TimerAt(ops, n, i)
    ensures Lookup(Run(ops).cancels, CancelKey(n, i)) == RegisteredAt(ops, n, i)
  {
    hide FormatJobToString, CancelKey, GetJobNameAndIDFromFormatString, TimedOut, Visit;
    if ops != [] {
      var past, op := ops[..|ops| - 1], ops[|ops| - 1];
      MapsFollowHistory(past, n, i);
      match op
      case Begin(m, j, _) => DistinctKeys(m, j, n, i);
      case SetTimer(m, j, _) => DistinctKeys(m, j, n, i);
      case End(m, j, _) => DistinctKeys(m, j, n, i);
      case Reject(m, j) => DistinctKeys(m, j, n, i);
      case Report(_, _, _) =>
      case Abort(_, _, _) =>
      case CancelJob(m, j) => DistinctKeys(m, j, n, i);
      case VisitTimer(key, now) => VisitFollowsHistory(past, key, now, n, i);
    }
  }

  lemma DistinctKeys(m: string, j: Int64, n: string, i: Int64)
    ensures FormatJobToString(m, j) == FormatJobToString(n, i) <==> m == n && j == i
    ensures CancelKey(m, j) == CancelKey(n, i) <==> m == n && j == i
  {
    if FormatJobToString(m, j) == FormatJobToString(n, i) { FormatIsInjective(m, j, n, i); }
    if CancelKey(m, j) == CancelKey(n, i) { CancelKeyIsInjective(m, j, n, i); }
  }

  lemma VisitFollowsHistory(past: seq<Op>, key: string, now: int, n: string, i: Int64)
    requires Lookup(Run(past).timers, FormatJobToString(n, i)) == TimerAt(past, n, i)
    requires Lookup(Run(past).cancels, CancelKey(n, i)) == RegisteredAt(past, n, i)
    ensures var s := Visit(Run(past), key, now);
            && Lookup(s.timers, FormatJobToString(n, i))
               == (if Expires(past, key, now, n, i) then None else TimerAt(past, n, i))
            && Lookup(s.cancels, CancelKey(n, i))
               == (if Expires(past, key, now, n, i) then None else RegisteredAt(past, n, i))
  {
    hide FormatJobToString, CancelKey, GetJobNameAndIDFromFormatString, TimedOut, Run, TimerAt, RegisteredAt;
    var s := Run(past);
    TimerKeysAreFormatted(past);
    if key in s.timers && TimedOut(s.timers[key], now) {
      var m, j := VisitDecodes(s, key, now);
      DistinctKeys(m, j, n, i);
    }
  }

  // ---- what that means for cancelling ----

  /** `Cancel` calls exactly the function the history assigns to the job, and no other. */
  lemma CancelReachesItsJob(ops: seq<Op>, n: string, i: Int64)
    ensures Run(ops + [CancelJob(n, i)]).called
            == Run(ops).called + (if RegisteredAt(ops, n, i).Some? then [RegisteredAt(ops, n, i).value] else [])
  {
    MapsFollowHistory(ops, n, i);
    assert (ops + [CancelJob(n, i)])[..|ops|] == ops;
  }

  /** A visit of the timer sweep cancels the job whose key it is when that job's step is overdue,
      and does nothing when no job's is. */
  lemma SweepCancelsOnlyOverdue(ops: seq<Op>, key: string, now: int)
    ensures forall n: string, i: Int64 :: Expires(ops, key, now, n, i) ==>
              Visit(Run(ops), key, now) == Cancel(Run(ops), n, i).(timers := Run(ops).timers - {key})
    ensures (forall n: string, i: Int64 :: !Expires(ops, key, now, n, i)) ==> Visit(Run(ops), key, now) == Run(ops)
  {
    hide FormatJobToString, CancelKey, GetJobNameAndIDFromFormatString, TimedOut, TimerAt, Visit, Run;
    var s := Run(ops);
    TimerKeysAreFormatted(ops);
    if key in s.timers && TimedOut(s.timers[key], now) {
      var m, j := VisitDecodes(s, key, now);
      MapsFollowHistory(ops, m, j);
      assert '(' !in m ==> Expires(ops, key, now, m, j);
      forall n: string, i: Int64 | Expires(ops, key, now, n, i) ensures n == m && i == j {
        DistinctKeys(m, j, n, i);
      }
    } else {
      forall n: string, i: Int64 ensures !Expires(ops, key, now, n, i) {
        MapsFollowHistory(ops, n, i);
      }
      VisitIdle(s, key, now);
    }
  }

  lemma VisitIdle(s: State, key: string, now: int)
    requires !(key in s.timers && TimedOut(s.timers[key], now))
    ensures Visit(s, key, now) == s
  {
  }

  /** A finished run leaves its own cancel function behind: its job is still reported RUNNING. */
  lemma EndKeepsOwnRegistration(ops: seq<Op>, n: string, i: Int64, status: Status)
    ensures RegisteredAt(ops + [End(n, i, status)], n, i) == RegisteredAt(ops, n, i)
    ensures Lookup(Run(ops + [End(n, i, status)]).cancels, CancelKey(n, i)) == Lookup(Run(ops).cancels, CancelKey(n, i))
  {
    assert (ops + [End(n, i, status)])[..|ops|] == ops;
    assert |CancelKey(n, i)| > |n|;
  }

  /** A finished run drops another job's cancel function exactly when its name is that job's key. */
  lemma EndDropsOther(ops: seq<Op>, m: string, j: Int64, status: Status, n: string, i: Int64)
    requires RegisteredAt(ops, n, i).Some?
    ensures RegisteredAt(ops + [End(m, j, status)], n, i).None? <==> m == CancelKey(n, i)
    ensures CancelKey(n, i) in Run(ops).cancels
    ensures CancelKey(n, i) !in Run(ops + [End(m, j, status)]).cancels <==> m == CancelKey(n, i)
  {
    hide Run, RegisteredAt, CancelKey;
    MapsFollowHistory(ops, n, i);
    MapsFollowHistory(ops + [End(m, j, status)], n, i);
    RegisteredSnoc(ops, End(m, j, status), n, i);
  }

  lemma RegisteredSnoc(ops: seq<Op>, op: Op, n: string, i: Int64)
    requires op.End?
    ensures RegisteredAt(ops + [op], n, i) == if op.name == CancelKey(n, i) then None else RegisteredAt(ops, n, i)
  {
    assert (ops + [op])[..|ops|] == ops;
  }

  /** The latest run not cancelled or timed out since. */
  function LatestUncancelled(ops: seq<Op>, n: string, i: Int64): Option<nat> {
    if ops == [] then None
    else
      var past := ops[..|ops| - 1];
      match ops[|ops| - 1]
      case Begin(m, j, token) => if m == n && j == i then Some(token) else LatestUncancelled(past, n, i)
      case CancelJob(m, j) => if m == n && j == i then None else LatestUncancelled(past, n, i)
      case VisitTimer(key, now) => if Expires(past, key, now, n, i) then None else LatestUncancelled(past, n, i)
      case _ => LatestUncancelled(past, n, i)
  }

  /** The operation at place `l` begins, cancels or times out job `(n, i)`. */
  predicate Replaces(ops: seq<Op>, l: nat, n: string, i: Int64)
    requires l < |ops|
  {
    match ops[l]
    case Begin(m, j, _) => m == n && j == i
    case CancelJob(m, j) => m == n && j == i
    case VisitTimer(key, now) => Expires(ops[..l], key, now, n, i)
    case _ => false
  }

  /** At place `k` a job named like the key of `(n, i)` finished while a run of `(n, i)` was uncancelled, and
      nothing happened to `(n, i)` since. */
  predicate DroppedAt(ops: seq<Op>, k: nat, n: string, i: Int64)
    requires k < |ops|
  {
    && ops[k].End? && ops[k].name == CancelKey(n, i)
    && LatestUncancelled(ops[..k], n, i).Some?
    && forall l :: k < l < |ops| ==> !Replaces(ops, l, n, i)
  }

  predicate Dropped(ops: seq<Op>, n: string, i: Int64) {
    exists k :: 0 <= k < |ops| && DroppedAt(ops, k, n, i)
  }

  lemma ReplacesInPrefix(ops: seq<Op>, m: nat, l: nat, n: string, i: Int64)
    requires l < m <= |ops|
    ensures Replaces(ops[..m], l, n, i) == Replaces(ops, l, n, i)
  {
    hide Expires;
    assert ops[..m][..l] == ops[..l];
  }

  lemma DroppedSnoc(ops: seq<Op>, n: string, i: Int64)
    requires ops != []
    ensures var past, last := ops[..|ops| - 1], |ops| - 1;
            Dropped(ops, n, i) <==> DroppedAt(ops, last, n, i) || (Dropped(past, n, i) && !Replaces(ops, last, n, i))
  {
    hide CancelKey, LatestUncancelled, Replaces;
    var past, last := ops[..|ops| - 1], |ops| - 1;
    forall k | 0 <= k < last
      ensures DroppedAt(ops, k, n, i) <==> DroppedAt(past, k, n, i) && !Replaces(ops, last, n, i)
    {
      assert past[..k] == ops[..k];
      forall l | k < l < last ensures Replaces(past, l, n, i) == Replaces(ops, l, n, i) {
        ReplacesInPrefix(ops, last, l, n, i);
      }
    }
  }

  /** The exact histories in which the wrong key does no harm to a job: those in which it has not been dropped. */
  lemma {:induction false} RegisteredUnlessDropped(ops: seq<Op>, n: string, i: Int64)
    ensures RegisteredAt(ops, n, i) == LatestUncancelled(ops, n, i) <==> !Dropped(ops, n, i)
    ensures Dropped(ops, n, i) ==> RegisteredAt(ops, n, i).None? && LatestUncancelled(ops, n, i).Some?
  {
    hide CancelKey, Expires, Dropped;
    if ops == [] {
      NothingDropped(n, i);
    } else {
      var past, last := ops[..|ops| - 1], |ops| - 1;
      RegisteredUnlessDropped(past, n, i);
      DroppedSnoc(ops, n, i);
    }
  }

  lemma NothingDropped(n: string, i: Int64)
    ensures !Dropped([], n, i)
  {
  }

  /** The same, of the map itself. */
  lemma CancelMapUnlessDropped(ops: seq<Op>, n: string, i: Int64)
    ensures Lookup(Run(ops).cancels, CancelKey(n, i)) == LatestUncancelled(ops, n, i) <==> !Dropped(ops, n, i)
  {
    hide Run, CancelKey, RegisteredAt, LatestUncancelled, Dropped;
    MapsFollowHistory(ops, n, i);
    RegisteredUnlessDropped(ops, n, i);
  }

  /** While no finished job has a '/' in its name, the wrong key does no harm. */
  lemma {:induction false} SlashFreeNamesAreSafe(ops: seq<Op>, n: string, i: Int64)
    requires forall k :: 0 <= k < |ops| && ops[k].End? ==> '/' !in ops[k].name
    ensures RegisteredAt(ops, n, i) == LatestUncancelled(ops, n, i)
  {
    hide CancelKey, Expires;
    if ops != [] {
      SlashFreeNamesAreSafe(ops[..|ops| - 1], n, i);
      CancelKeyHasSlash(n, i);
    }
  }

  /** With a '/', it does: job "a/1" finishing makes running job ("a", 1) impossible to cancel. */
  lemma SlashNameUnregistersRunningJob()
    ensures var ops := [Begin("a", 1, 7), End("a/1", 5, Success)];
            RegisteredAt(ops, "a", 1) == None && LatestUncancelled(ops, "a", 1) == Some(7)
  {
    var ops := [Begin("a", 1, 7), End("a/1", 5, Success)];
    assert Itoa(1) == "1";
    assert ops[..1] == [Begin("a", 1, 7)];
    assert ops[..1][..0] == [];
  }
}
