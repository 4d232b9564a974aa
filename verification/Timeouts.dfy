/** Which visit of the timer sweep cancels a job, read off the history of operations. */
module Timeouts {
  import opened Results
  import opened Text
  import opened JobKeys
  import opened Model
  import opened Registry

  /** The operation ends the timer that job `(n, i)` set at time `t`: a newer one, the end of the job, or a visit more
      than thirty minutes later. */
  predicate EndsTimer(op: Op, n: string, i: Int64, t: int) {
    match op
    case SetTimer(m, j, _) => m == n && j == i
    case End(m, j, _) => m == n && j == i
    case Reject(m, j) => m == n && j == i
    case VisitTimer(key, now) => key == n + "(" + Itoa(i) + ")" && '(' !in n && now - t > 1_800_000_000_000
    case _ => false
  }

  /** Operation `k` set the timer of job `(n, i)` that still stands. */
  ghost predicate Stands(ops: seq<Op>, k: int, n: string, i: Int64) {
    && 0 <= k < |ops| && ops[k].SetTimer? && ops[k].name == n && ops[k].id == i
    && forall l :: k < l < |ops| ==> !EndsTimer(ops[l], n, i, ops[k].now)
  }

  ghost predicate IsOverdue(ops: seq<Op>, now: int, n: string, i: Int64) {
    '(' !in n && exists k :: Stands(ops, k, n, i) && now - ops[k].now > 1_800_000_000_000
  }

  /** The operation ends the registration that job `(n, i)` got before it. */
  ghost predicate EndsRegistration(ops: seq<Op>, l: nat, n: string, i: Int64)
    requires l < |ops|
  {
    match ops[l]
    case Begin(m, j, _) => m == n && j == i
    case CancelJob(m, j) => m == n && j == i
    case End(m, _, _) => m == n + "/" + Itoa(i)
    case VisitTimer(key, now) => key == n + "(" + Itoa(i) + ")" && IsOverdue(ops[..l], now, n, i)
    case _ => false
  }

  /** Operation `k` began the run of job `(n, i)` that is still registered. */
  ghost predicate Registered(ops: seq<Op>, k: int, n: string, i: Int64) {
    && 0 <= k < |ops| && ops[k].Begin? && ops[k].name == n && ops[k].id == i
    && forall l :: k < l < |ops| ==> !EndsRegistration(ops, l, n, i)
  }

  lemma StandsSnoc(past: seq<Op>, op: Op, k: int, n: string, i: Int64)
    ensures Stands(past + [op], k, n, i) <==>
            || (Stands(past, k, n, i) && !EndsTimer(op, n, i, past[k].now))
            || (k == |past| && op.SetTimer? && op.name == n && op.id == i)
  {
    hide EndsTimer;
    var ops := past + [op];
    assert ops[|past|] == op;
    assert 0 <= k < |past| ==> ops[k] == past[k];
    if Stands(past, k, n, i) && !EndsTimer(op, n, i, past[k].now) {
      forall l | k < l < |ops| ensures !EndsTimer(ops[l], n, i, ops[k].now) {
        if l < |past| { assert ops[l] == past[l]; }
      }
    }
    if k != |past| && Stands(ops, k, n, i) {
      forall l | k < l < |past| ensures !EndsTimer(past[l], n, i, past[k].now) {
        assert ops[l] == past[l];
      }
      assert !EndsTimer(ops[|past|], n, i, ops[k].now);
    }
  }

  /** The timer the map holds for a job is the one that still stands, if any does. */
  lemma {:induction false} TimerStands(ops: seq<Op>, n: string, i: Int64)
    ensures forall k :: Stands(ops, k, n, i) ==> TimerAt(ops, n, i) == Some(ops[k].now)
    ensures TimerAt(ops, n, i).Some? ==> exists k :: Stands(ops, k, n, i)
  {
    hide EndsTimer;
    if ops == [] {
      NothingStands(n, i);
    } else {
      var past, op := ops[..|ops| - 1], ops[|ops| - 1];
      assert ops == past + [op];
      TimerStands(past, n, i);
      TimerNext(past, op, n, i);
      StandsSnoc(past, op, |past|, n, i);
      forall k
        ensures Stands(ops, k, n, i) <==>
                || (Stands(past, k, n, i) && !EndsTimer(op, n, i, past[k].now))
                || (k == |past| && op.SetTimer? && op.name == n && op.id == i)
      {
        StandsSnoc(past, op, k, n, i);
      }
    }
  }

  lemma NothingStands(n: string, i: Int64)
    ensures forall k :: !Stands([], k, n, i)
  {
  }

  /** One operation more. */
  lemma TimerNext(past: seq<Op>, op: Op, n: string, i: Int64)
    ensures TimerAt(past + [op], n, i)
            == if op.SetTimer? && op.name == n && op.id == i then Some(op.now)
               else if TimerAt(past, n, i).Some? && EndsTimer(op, n, i, TimerAt(past, n, i).value) then None
               else TimerAt(past, n, i)
    ensures op.SetTimer? && op.name == n && op.id == i ==> forall t :: EndsTimer(op, n, i, t)
  {
    assert (past + [op])[..|past|] == past;
  }

  lemma OverdueIff(ops: seq<Op>, now: int, n: string, i: Int64)
    ensures IsOverdue(ops, now, n, i) <==> Expires(ops, FormatJobToString(n, i), now, n, i)
  {
    hide Stands, FormatJobToString;
    TimerStands(ops, n, i);
  }

  lemma RegisteredNext(past: seq<Op>, op: Op, n: string, i: Int64)
    ensures RegisteredAt(past + [op], n, i)
            == if op.Begin? && op.name == n && op.id == i then Some(op.token)
               else if EndsRegistration(past + [op], |past|, n, i) then None
               else RegisteredAt(past, n, i)
  {
    hide IsOverdue, Expires;
    assert (past + [op])[..|past|] == past;
    if op.VisitTimer? { OverdueIff(past, op.now, n, i); ExpiresForItsKey(past, op.key, op.now, n, i); }
  }

  lemma ExpiresForItsKey(ops: seq<Op>, key: string, now: int, n: string, i: Int64)
    ensures Expires(ops, key, now, n, i) <==>
            key == n + "(" + Itoa(i) + ")" && Expires(ops, FormatJobToString(n, i), now, n, i)
  {
  }

  lemma EndsInPrefix(past: seq<Op>, op: Op, l: nat, n: string, i: Int64)
    requires l < |past|
    ensures EndsRegistration(past + [op], l, n, i) == EndsRegistration(past, l, n, i)
  {
    hide IsOverdue;
    assert (past + [op])[..l] == past[..l];
  }

  lemma RegisteredSnocIff(past: seq<Op>, op: Op, k: int, n: string, i: Int64)
    ensures Registered(past + [op], k, n, i) <==>
            || (Registered(past, k, n, i) && !EndsRegistration(past + [op], |past|, n, i))
            || (k == |past| && op.Begin? && op.name == n && op.id == i)
  {
    hide EndsRegistration;
    var ops := past + [op];
    forall l | 0 <= l < |past| ensures EndsRegistration(ops, l, n, i) == EndsRegistration(past, l, n, i) {
      EndsInPrefix(past, op, l, n, i);
    }
  }

  /** The cancel function the map holds for a job is that of the run which is still registered, if any is. */
  lemma {:induction false} RegisteredStands(ops: seq<Op>, n: string, i: Int64)
    ensures forall k :: Registered(ops, k, n, i) ==> RegisteredAt(ops, n, i) == Some(ops[k].token)
    ensures RegisteredAt(ops, n, i).Some? ==> exists k :: Registered(ops, k, n, i)
  {
    hide EndsRegistration;
    if ops == [] {
      NothingRegistered(n, i);
    } else {
      var past, op := ops[..|ops| - 1], ops[|ops| - 1];
      assert ops == past + [op];
      RegisteredStands(past, n, i);
      RegisteredNext(past, op, n, i);
      BeginEnds(ops, |past|, n, i);
      RegisteredSnocIff(past, op, |past|, n, i);
      forall k
        ensures Registered(ops, k, n, i) <==>
                || (Registered(past, k, n, i) && !EndsRegistration(ops, |past|, n, i))
                || (k == |past| && op.Begin? && op.name == n && op.id == i)
      {
        RegisteredSnocIff(past, op, k, n, i);
      }
    }
  }

  lemma BeginEnds(ops: seq<Op>, l: nat, n: string, i: Int64)
    requires l < |ops|
    ensures ops[l].Begin? && ops[l].name == n && ops[l].id == i ==> EndsRegistration(ops, l, n, i)
  {
  }

  lemma NothingRegistered(n: string, i: Int64)
    ensures forall k :: !Registered([], k, n, i)
  {
  }

  /** After any history, a visit of a job's timer cancels that job if and only if its name has no '(' and the timer
      that still stands was set more than thirty minutes before. Then the function of the run that is still registered
      is called, if there is one, its entry and the timer go, and one STOP is sent; otherwise nothing happens. */
  lemma VisitCancelsIff(ops: seq<Op>, n: string, i: Int64, now: int)
    ensures var key := n + "(" + Itoa(i) + ")"; var s, r := Run(ops), Run(ops + [VisitTimer(key, now)]);
            var overdue := '(' !in n && exists k :: Stands(ops, k, n, i) && now - ops[k].now > 1_800_000_000_000;
            && (!overdue ==> r == s)
            && (overdue ==> && r.timers == s.timers - {key} && key in s.timers
                            && r.cancels == s.cancels - {n + "/" + Itoa(i)}
                            && r.sent == s.sent + [StatusMessage(n, i, Stop)]
                            && (forall k :: Registered(ops, k, n, i) ==> r.called == s.called + [ops[k].token])
                            && ((forall k :: !Registered(ops, k, n, i)) ==> r.called == s.called))
  {
    hide Run, RegisteredAt, TimerAt, Registered, Stands, Itoa, TimedOut, GetJobNameAndIDFromFormatString;
    var key := FormatJobToString(n, i);
    RunSnoc(ops, VisitTimer(key, now));
    OverdueIff(ops, now, n, i);
    MapsFollowHistory(ops, n, i);
    RegisteredStands(ops, n, i);
    DecodeFormatted(n, i);
  }

  /** Cancelling a job calls the function of the run that is still registered, if there is one. */
  lemma CancelCallsLatestRun(ops: seq<Op>, n: string, i: Int64)
    ensures var s, r := Run(ops), Run(ops + [CancelJob(n, i)]);
            && (forall k :: Registered(ops, k, n, i) ==> r.called == s.called + [ops[k].token])
            && ((forall k :: !Registered(ops, k, n, i)) ==> r.called == s.called)
            && r.cancels == s.cancels - {n + "/" + Itoa(i)} && r.timers == s.timers
            && r.sent == s.sent + [StatusMessage(n, i, Stop)]
  {
    hide Run, RegisteredAt, Registered, Itoa;
    RunSnoc(ops, CancelJob(n, i));
    CancelReachesItsJob(ops, n, i);
    RegisteredStands(ops, n, i);
  }
}
