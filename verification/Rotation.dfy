/** Whole runs of the dispatcher: agreement of list and map, fairness, and job histories. */
module Rotation {
  import opened Results
  import opened Text
  import opened JobKeys
  import opened Dispatch
  import opened Arithmetic

  datatype Op =
    | DispatchOp
    | RegisterOp(node: Node, now: int)
    | UnregisterOp(key: string)
    | PingOp(node: Node, now: int)
    | SendOp(name: string, id: Int64, node: Node)

  function Apply(p: Pool, op: Op): Pool {
    match op
    case DispatchOp => AfterDispatch(p)
    case RegisterOp(node, now) => AfterRegister(p, node, now)
    case UnregisterOp(key) => AfterUnregister(p, key)
    case PingOp(node, now) => AfterPing(p, node, now)
    case SendOp(name, id, node) => AfterSend(p, name, id, node)
  }

  function Run(p: Pool, ops: seq<Op>): Pool {
    if ops == [] then p else Apply(Run(p, ops[..|ops| - 1]), ops[|ops| - 1])
  }

  // ---- what every run keeps ----

  ghost predicate Sound(p: Pool) {
    && (forall k :: k in p.nodes ==> KeyOf(p.nodes[k].node) == k)
    && |p.queue| == |p.nodes|
    && (p.wrap < |p.queue| || p.wrap == |p.queue| == 0)
  }

  /** Whatever is unregistered, the queue stays as long as the map and the cursor in range. */
  lemma {:induction false} RunsAreSound(p: Pool, ops: seq<Op>)
    requires Sound(p)
    ensures Sound(Run(p, ops))
  {
    hide KeyOf, NodesOf, FormatJobToString;
    if ops != [] {
      RunsAreSound(p, ops[..|ops| - 1]);
      StepIsSound(Run(p, ops[..|ops| - 1]), ops[|ops| - 1]);
    }
  }

  lemma StepIsSound(p: Pool, op: Op)
    requires Sound(p)
    ensures Sound(Apply(p, op))
  {
    hide KeyOf, NodesOf, FormatJobToString, Sound, AfterDispatch, AfterRegister, AfterUnregister, AfterPing, AfterSend;
    match op
    case DispatchOp => DispatchIsSound(p);
    case RegisterOp(node, now) => RegisterIsSound(p, node, now);
    case UnregisterOp(key) => UnregisterIsSound(p, key);
    case PingOp(node, now) => PingIsSound(p, node, now);
    case SendOp(name, id, node) => SendIsSound(p, name, id, node);
  }

  lemma DispatchIsSound(p: Pool)
    requires Sound(p)
    ensures Sound(AfterDispatch(p))
  {
  }

  lemma RegisterIsSound(p: Pool, node: Node, now: int)
    requires Sound(p)
    ensures Sound(AfterRegister(p, node, now))
  {
    hide KeyOf;
  }

  lemma UnregisterIsSound(p: Pool, key: string)
    requires Sound(p)
    ensures Sound(AfterUnregister(p, key))
  {
    hide KeyOf;
    if key in p.nodes {
      SizeWithout(p.nodes, key);
    }
  }

  lemma PingIsSound(p: Pool, node: Node, now: int)
    requires Sound(p)
    ensures Sound(AfterPing(p, node, now))
  {
    hide KeyOf;
  }

  lemma SendIsSound(p: Pool, name: string, id: Int64, node: Node)
    requires Sound(p)
    ensures Sound(AfterSend(p, name, id, node))
  {
    hide KeyOf, NodesOf, FormatJobToString;
  }

  ghost predicate Distinct(q: seq<string>) {
    forall i, j :: 0 <= i < j < |q| ==> q[i] != q[j]
  }

  ghost function Members(q: seq<string>): set<string> {
    set k | k in q
  }

  /** The queue lists every registered node exactly once, and nothing else. */
  ghost predicate Agrees(p: Pool) {
    Distinct(p.queue) && Members(p.queue) == p.nodes.Keys
  }

  predicate AtBack(p: Pool, key: string) {
    p.queue != [] && p.queue[|p.queue| - 1] == key
  }

  /** Removing a registered node keeps the agreement exactly when its key is the one dispatched last. */
  lemma UnregisterAgreesIffAtBack(p: Pool, key: string)
    requires Agrees(p) && key in p.nodes
    ensures Agrees(AfterUnregister(p, key)) <==> AtBack(p, key)
  {
    DropBack(p.queue, key);
  }

  lemma DropBack(q: seq<string>, key: string)
    requires Distinct(q) && key in q
    ensures q != [] && Distinct(q[..|q| - 1])
    ensures Members(q[..|q| - 1]) == Members(q) - {q[|q| - 1]}
  {
    var back := q[|q| - 1];
    assert q == q[..|q| - 1] + [back];
  }

  /** Otherwise its key stays in the queue without a node, and another node can no longer be reached. */
  lemma UnregisterElsewhereStrandsANode(p: Pool, key: string)
    requires Agrees(p) && key in p.nodes && !AtBack(p, key)
    ensures var r := AfterUnregister(p, key); var back := p.queue[|p.queue| - 1];
            && key in r.queue && key !in r.nodes
            && back in r.nodes && back !in r.queue
  {
    DropBack(p.queue, key);
    var back := p.queue[|p.queue| - 1];
    assert back in Members(p.queue);
    assert back !in Members(p.queue[..|p.queue| - 1]);
    assert key in Members(p.queue[..|p.queue| - 1]);
  }

  lemma RotateKeepsMembers(q: seq<string>)
    ensures Members(Rotate(q)) == Members(q)
    ensures Distinct(q) ==> Distinct(Rotate(q))
  {
    if q != [] {
      assert q == [q[0]] + q[1..];
    }
  }

  lemma InsertMember(q: seq<string>, i: nat, key: string)
    requires i <= |q|
    ensures Members(InsertAt(q, i, key)) == Members(q) + {key}
    ensures Distinct(q) && key !in q ==> Distinct(InsertAt(q, i, key))
  {
    var r := InsertAt(q, i, key);
    assert q == q[..i] + q[i..];
    assert r[i] == key;
  }

  /** Every unregistration in `ops` is of an unknown key or of the one dispatched last. */
  ghost predicate OnlyDropsBack(p: Pool, ops: seq<Op>) {
    forall k :: 0 <= k < |ops| && ops[k].UnregisterOp? ==>
      ops[k].key !in Run(p, ops[..k]).nodes || AtBack(Run(p, ops[..k]), ops[k].key)
  }

  /** Along such runs the list and the map agree throughout. */
  lemma {:induction false} RunsAgree(p: Pool, ops: seq<Op>)
    requires Sound(p) && Agrees(p) && OnlyDropsBack(p, ops)
    ensures Agrees(Run(p, ops))
  {
    hide KeyOf, Sound, Agrees, Apply;
    if ops != [] {
      var n := |ops| - 1;
      forall k | 0 <= k < n && ops[..n][k].UnregisterOp?
        ensures ops[..n][k].key !in Run(p, ops[..n][..k]).nodes || AtBack(Run(p, ops[..n][..k]), ops[..n][k].key)
      {
        assert ops[..n][..k] == ops[..k];
      }
      RunsAgree(p, ops[..n]);
      RunsAreSound(p, ops[..n]);
      StepAgrees(Run(p, ops[..n]), ops[n]);
    }
  }

  lemma StepAgrees(p: Pool, op: Op)
    requires Sound(p) && Agrees(p)
    requires op.UnregisterOp? ==> op.key !in p.nodes || AtBack(p, op.key)
    ensures Agrees(Apply(p, op))
  {
    hide KeyOf, Members, Distinct, NodesOf, FormatJobToString;
    match op
    case DispatchOp => RotateKeepsMembers(p.queue);
    case RegisterOp(node, now) =>
      assert KeyOf(node) in p.queue ==> KeyOf(node) in Members(p.queue) by { MemberOf(p.queue, KeyOf(node)); }
      InsertMember(p.queue, |p.queue| - p.wrap, KeyOf(node));
    case UnregisterOp(key) =>
      if key in p.nodes { UnregisterAgreesIffAtBack(p, key); }
    case PingOp(_, _) =>
    case SendOp(_, _, _) =>
  }

  lemma MemberOf(q: seq<string>, k: string)
    ensures k in q <==> k in Members(q)
  {
  }

  /** What `DispatchNode` returns. */
  function Dispatched(p: Pool): Option<Node> {
    if p.queue != [] && p.queue[0] in p.nodes then Some(p.nodes[p.queue[0]].node) else None
  }

  /** With list and map in agreement, dispatching fails only when there is no node. */
  lemma DispatchFailsOnlyWhenEmpty(p: Pool)
    requires Sound(p) && Agrees(p)
    ensures Dispatched(p).None? <==> p.nodes == map[]
  {
    if p.queue != [] {
      MemberOf(p.queue, p.queue[0]);
    }
  }

  // ---- fairness ----

  /** The keys of `m` dispatches in a row. */
  function Picks(q: seq<string>, m: nat): seq<string>
    decreases m
  {
    if m == 0 || q == [] then [] else [q[0]] + Picks(Rotate(q), m - 1)
  }

  /** Queue after `m` dispatches. */
  function Rotated(q: seq<string>, m: nat): seq<string>
    decreases m
  {
    if m == 0 then q else Rotated(Rotate(q), m - 1)
  }

  /** `m` dispatches within one round walk down the queue and move what they pass to the back. */
  lemma {:induction false} PartialRound(q: seq<string>, m: nat)
    requires m <= |q|
    ensures Picks(q, m) == q[..m]
    ensures Rotated(q, m) == q[m..] + q[..m]
  {
    if m > 0 {
      PartialRoundBack(q, m - 1);
    }
  }

  lemma {:induction false} PartialRoundBack(q: seq<string>, m: nat)
    requires m + 1 <= |q|
    ensures Picks(q, m + 1) == q[..m + 1]
    ensures Rotated(q, m + 1) == q[m + 1..] + q[..m + 1]
    decreases m
  {
    var r := Rotate(q);
    if m > 0 {
      PartialRoundBack(r, m - 1);
    }
    assert [q[0]] + r[..m] == q[..m + 1];
    assert r[m..] + r[..m] == q[m + 1..] + q[..m + 1];
  }

  /** A full round picks every key once, in order, and restores the queue. */
  lemma FullRound(q: seq<string>)
    ensures Picks(q, |q|) == q && Rotated(q, |q|) == q
  {
    PartialRound(q, |q|);
  }

  lemma {:induction false} PicksAppend(q: seq<string>, a: nat, b: nat)
    ensures Picks(q, a + b) == Picks(q, a) + Picks(Rotated(q, a), b)
    decreases a
  {
    if a > 0 && q != [] {
      PicksAppend(Rotate(q), a - 1, b);
    } else if a > 0 {
      EmptyRotated(q, a);
    }
  }

  lemma {:induction false} EmptyRotated(q: seq<string>, a: nat)
    requires q == []
    ensures Rotated(q, a) == []
  {
    if a > 0 {
      EmptyRotated(q, a - 1);
    }
  }

  /** Over `m` dispatches of `n` distinct keys, the key at place `r` is picked once per full round, and
      once more if the last round reaches it; so any two counts differ by at most one. */
  lemma {:induction false} FairShare(q: seq<string>, m: nat, r: nat)
    requires Distinct(q) && r < |q|
    ensures multiset(Picks(q, m))[q[r]] == m / |q| + if r < m % |q| then 1 else 0
    decreases m
  {
    hide Picks, Rotated;
    if m < |q| {
      PartialRound(q, m);
      CountPrefix(q, m, r);
      DivModUnique(m, |q|, 0, m);
    } else {
      PicksAppend(q, |q|, m - |q|);
      FullRound(q);
      FairShare(q, m - |q|, r);
      CountAll(q, r);
      OneRoundLess(m, |q|);
      assert multiset(q + Picks(q, m - |q|)) == multiset(q) + multiset(Picks(q, m - |q|));
    }
  }

  lemma CountAll(q: seq<string>, r: nat)
    requires Distinct(q) && r < |q|
    ensures multiset(q)[q[r]] == 1
  {
    CountPrefix(q, |q|, r);
    assert q[..|q|] == q;
  }

  /** No node gets two dispatches more than another. */
  lemma CountsDifferByAtMostOne(q: seq<string>, m: nat, a: string, b: string)
    requires Distinct(q) && a in q && b in q
    ensures multiset(Picks(q, m))[a] <= multiset(Picks(q, m))[b] + 1
  {
    var i :| 0 <= i < |q| && q[i] == a;
    var j :| 0 <= j < |q| && q[j] == b;
    FairShare(q, m, i);
    FairShare(q, m, j);
  }

  // ---- fairness of the dispatcher ----

  /** What the dispatches of a run return. */
  function Returned(p: Pool, ops: seq<Op>): seq<Option<Node>> {
    if ops == [] then []
    else
      var past := ops[..|ops| - 1];
      Returned(p, past) + if ops[|ops| - 1].DispatchOp? then [Dispatched(Run(p, past))] else []
  }

  predicate FixedMembership(ops: seq<Op>) {
    forall k :: 0 <= k < |ops| ==> !ops[k].RegisterOp? && !ops[k].UnregisterOp?
  }

  /** The results are nodes stored under the keys `picks`, one by one. */
  ghost predicate NodesUnder(results: seq<Option<Node>>, picks: seq<string>) {
    && |results| == |picks|
    && forall k :: 0 <= k < |results| ==> results[k].Some? && KeyOf(results[k].value) == picks[k]
  }

  /** With fixed membership, dispatches return the nodes under the keys of the rotation, whatever pings and jobs
      come between them. */
  lemma {:induction false} DispatchesFollowRotation(p: Pool, ops: seq<Op>)
    requires Sound(p) && Agrees(p) && FixedMembership(ops) && p.nodes != map[]
    ensures NodesUnder(Returned(p, ops), Picks(p.queue, |Returned(p, ops)|))
    ensures Run(p, ops).queue == Rotated(p.queue, |Returned(p, ops)|)
    ensures Run(p, ops).nodes.Keys == p.nodes.Keys && Sound(Run(p, ops)) && Agrees(Run(p, ops))
  {
    hide KeyOf, NodesOf, Sound, Agrees, Dispatched, Apply, Picks, Rotated;
    if ops == [] {
      NoPicks(p.queue);
    } else {
      var past, op := ops[..|ops| - 1], ops[|ops| - 1];
      var q, m := Run(p, past), |Returned(p, past)|;
      DispatchesFollowRotation(p, past);
      RunsAreSound(p, ops);
      StepAgrees(q, op);
      StepKeepsMembers(q, op);
      if op.DispatchOp? {
        NextResult(q);
        PicksAppend(p.queue, m, 1);
        RotatedAppend(p.queue, m);
        OnePick(q.queue);
      } else {
        assert Returned(p, past) + [] == Returned(p, past);
      }
    }
  }

  lemma NoPicks(q: seq<string>)
    ensures Picks(q, 0) == [] && Rotated(q, 0) == q
  {
  }

  lemma OnePick(q: seq<string>)
    requires q != []
    ensures Picks(q, 1) == [q[0]]
  {
    NoPicks(Rotate(q));
    assert [q[0]] + [] == [q[0]];
  }

  lemma {:induction false} RotatedAppend(q: seq<string>, m: nat)
    ensures Rotated(q, m + 1) == Rotate(Rotated(q, m))
    decreases m
  {
    if m > 0 {
      RotatedAppend(Rotate(q), m - 1);
    }
  }

  lemma StepKeepsMembers(p: Pool, op: Op)
    requires !op.RegisterOp? && !op.UnregisterOp?
    ensures Apply(p, op).nodes.Keys == p.nodes.Keys
    ensures Apply(p, op).queue == if op.DispatchOp? then Rotate(p.queue) else p.queue
  {
    hide KeyOf, NodesOf, FormatJobToString;
  }

  /** The node returned is the one under the head of the queue. */
  lemma NextResult(p: Pool)
    requires Sound(p) && Agrees(p) && p.nodes != map[]
    ensures p.queue != [] && Dispatched(p).Some? && KeyOf(Dispatched(p).value) == p.queue[0]
  {
    hide KeyOf, Distinct;
    assert p.queue != [];
    MemberOf(p.queue, p.queue[0]);
  }

  /** As many dispatches in a row as there are nodes return each node exactly once, in the order of the queue. */
  lemma EachNodeOncePerRound(p: Pool, ops: seq<Op>)
    requires Sound(p) && Agrees(p) && FixedMembership(ops) && p.nodes != map[] && |Returned(p, ops)| == |p.nodes|
    ensures NodesUnder(Returned(p, ops), p.queue) && Distinct(p.queue) && Members(p.queue) == p.nodes.Keys
  {
    hide NodesUnder, Returned, Picks, Rotated, Distinct, Members;
    DispatchesFollowRotation(p, ops);
    FullRound(p.queue);
  }

  /** How often the node under `key` was dispatched. */
  function TimesDispatched(results: seq<Option<Node>>, key: string): nat {
    if results == [] then 0
    else
      var r := results[|results| - 1];
      TimesDispatched(results[..|results| - 1], key) + if r.Some? && KeyOf(r.value) == key then 1 else 0
  }

  lemma {:induction false} TimesArePicks(results: seq<Option<Node>>, picks: seq<string>, key: string)
    requires NodesUnder(results, picks)
    ensures TimesDispatched(results, key) == multiset(picks)[key]
  {
    hide KeyOf;
    if results != [] {
      var n := |results| - 1;
      TimesArePicks(results[..n], picks[..n], key);
      assert picks == picks[..n] + [picks[n]];
    }
  }

  /** The exact share of each node of a run with fixed membership. */
  lemma ShareOfNode(p: Pool, ops: seq<Op>, r: nat)
    requires Sound(p) && Agrees(p) && FixedMembership(ops) && r < |p.queue|
    ensures var n, m := |p.queue|, |Returned(p, ops)|;
            TimesDispatched(Returned(p, ops), p.queue[r]) == m / n + if r < m % n then 1 else 0
  {
    hide NodesUnder, Returned, Picks, Rotated, TimesDispatched, Sound, Members, Distinct;
    MemberOf(p.queue, p.queue[r]);
    DispatchesFollowRotation(p, ops);
    TimesArePicks(Returned(p, ops), Picks(p.queue, |Returned(p, ops)|), p.queue[r]);
    FairShare(p.queue, |Returned(p, ops)|, r);
  }

  /** Over any run with fixed membership, no node is dispatched two times more than another. */
  lemma NodesShareFairly(p: Pool, ops: seq<Op>, a: string, b: string)
    requires Sound(p) && Agrees(p) && FixedMembership(ops) && a in p.nodes && b in p.nodes
    ensures TimesDispatched(Returned(p, ops), a) <= TimesDispatched(Returned(p, ops), b) + 1
  {
    hide NodesUnder, Returned, Picks, Rotated, TimesDispatched, Sound, Members, Distinct;
    DispatchesFollowRotation(p, ops);
    var picks := Picks(p.queue, |Returned(p, ops)|);
    TimesArePicks(Returned(p, ops), picks, a);
    TimesArePicks(Returned(p, ops), picks, b);
    MemberOf(p.queue, a);
    MemberOf(p.queue, b);
    CountsDifferByAtMostOne(p.queue, |Returned(p, ops)|, a, b);
  }

  // ---- counting ----

  lemma OneRoundLess(m: nat, n: nat)
    requires 0 < n <= m
    ensures m / n == (m - n) / n + 1 && m % n == (m - n) % n
  {
    var d := (m - n) / n;
    assert m == (d + 1) * n + (m - n) % n;
    DivModUnique(m, n, d + 1, (m - n) % n);
  }

  lemma {:induction false} CountPrefix(q: seq<string>, m: nat, r: nat)
    requires Distinct(q) && m <= |q| && r < |q|
    ensures multiset(q[..m])[q[r]] == if r < m then 1 else 0
  {
    if m > 0 {
      CountPrefix(q, m - 1, r);
      assert q[..m] == q[..m - 1] + [q[m - 1]];
    }
  }

  // ---- job histories ----

  /** The nodes a job was sent to, in order. */
  function SentTo(ops: seq<Op>, name: string, id: Int64): seq<Node> {
    if ops == [] then []
    else
      var op := ops[|ops| - 1];
      SentTo(ops[..|ops| - 1], name, id) + if op.SendOp? && op.name == name && op.id == id then [op.node] else []
  }

  /** After any run the history of a job is exactly the nodes it was sent to, whatever other jobs did. */
  lemma {:induction false} HistoryIsSentTo(p: Pool, ops: seq<Op>, name: string, id: Int64)
    requires p.history == map[]
    ensures NodesOf(Run(p, ops).history, name, id) == SentTo(ops, name, id)
  {
    hide FormatJobToString, AfterRegister, AfterUnregister, AfterPing, AfterDispatch;
    if ops != [] {
      var past, op := ops[..|ops| - 1], ops[|ops| - 1];
      HistoryIsSentTo(p, past, name, id);
      if !op.SendOp? { OthersKeepHistory(Run(p, past), op); }
      if op.SendOp? && FormatJobToString(op.name, op.id) == FormatJobToString(name, id) {
        FormatIsInjective(op.name, op.id, name, id);
      }
    }
  }

  lemma OthersKeepHistory(p: Pool, op: Op)
    requires !op.SendOp?
    ensures Apply(p, op).history == p.history
  {
  }

  /** Cancel and status messages go to the node the job was sent to last, and to no other job's. */
  lemma MessagesFollowTheJob(ops: seq<Op>, name: string, id: Int64, kind: MessageType)
    ensures AddressLatest(NodesOf(Run(EmptyPool, ops).history, name, id), kind, name, id)
            == if SentTo(ops, name, id) == [] then None
               else Some(Message(SentTo(ops, name, id)[|SentTo(ops, name, id)| - 1], kind, name, id))
  {
    HistoryIsSentTo(EmptyPool, ops, name, id);
  }
}
