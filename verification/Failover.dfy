/** The master's failover: the server's send loop, its error handler and `dispatchJob`, joined by two
    channels. */
module Failover {
  import opened Results
  import opened Text
  import opened JobKeys
  import opened Dispatch
  import opened Rotation

  /** What becomes of one message: no stream for its node, a failing stream, or neither. */
  datatype Delivery = NoStream | SendFailed | Delivered

  datatype ServerError =
    | SendJobError(errorNode: string, jobName: string, jobId: Int64)
    | OtherError

  /** The message type the send loop retries. */
  const RETRY_TYPE: nat := 4

  /** A failed send is reported as a job to dispatch again only for the retriable type; a missing
      stream is otherwise not reported at all. */
  function Reported(retriable: nat, msg: Message, d: Delivery): seq<ServerError> {
    if d.Delivered? then []
    else if Code(msg.kind) == retriable then [SendJobError(KeyOf(msg.node), msg.jobName, msg.jobId)]
    else if d.SendFailed? then [OtherError]
    else []
  }

  /** A message that was not delivered is reported for another dispatch exactly when its number is the one tested: 3 for
      EXECUTE, 4 for CANCEL, 9 for STATUS. */
  lemma RetriedTypes(n: nat, msg: Message, d: Delivery)
    requires !d.Delivered? && msg.kind in {Execute, Cancel, Status}
    ensures (exists e :: e in Reported(n, msg, d) && e.SendJobError?) <==>
            || (n == 3 && msg.kind == Execute) || (n == 4 && msg.kind == Cancel) || (n == 9 && msg.kind == Status)
  {
    if Code(msg.kind) == n {
      assert SendJobError(KeyOf(msg.node), msg.jobName, msg.jobId) in Reported(n, msg, d);
    }
  }

  /** With the type the code tests, a lost EXECUTE is never dispatched again, and a lost CANCEL is. */
  lemma OnlyCancelIsRetried(msg: Message, d: Delivery)
    requires !d.Delivered?
    ensures (exists e :: e in Reported(RETRY_TYPE, msg, d) && e.SendJobError?) <==> msg.kind == Cancel
  {
    if msg.kind == Cancel {
      assert SendJobError(KeyOf(msg.node), msg.jobName, msg.jobId) in Reported(RETRY_TYPE, msg, d);
    }
  }

  /** Both channels, the dispatcher between them, and what reached the nodes. */
  datatype MasterState = MasterState(
    pool: Pool,
    send: seq<Message>,
    errors: seq<ServerError>,
    delivered: seq<Message>)

  class Master {
    const dispatcher: GrpcDispatcher
    const retriable: nat
    var sendChan: seq<Message>
    var errorChan: seq<ServerError>
    ghost var delivered: seq<Message>

    constructor (dispatcher: GrpcDispatcher, retriable: nat)
      ensures this.dispatcher == dispatcher && this.retriable == retriable
      ensures sendChan == [] && errorChan == [] && delivered == []
    {
      this.dispatcher := dispatcher;
      this.retriable := retriable;
      sendChan, errorChan, delivered := [], [], [];
    }

    ghost function State(): MasterState
      requires dispatcher.Valid()
      reads this, dispatcher
    {
      MasterState(dispatcher.State(), sendChan, errorChan, delivered)
    }

    /** One turn of the send loop. */
    method SendNext(d: Delivery)
      requires sendChan != []
      modifies this
      ensures sendChan == old(sendChan)[1..]
      ensures errorChan == old(errorChan) + Reported(retriable, old(sendChan)[0], d)
      ensures var m := old(sendChan)[0];
              errorChan == old(errorChan)
                           + if d == Delivered then []
                             else if Code(m.kind) == retriable then
                               [SendJobError(m.node.name + "@" + m.node.address, m.jobName, m.jobId)]
                             else if d == SendFailed then [OtherError]
                             else []
      ensures delivered == old(delivered) + if d.Delivered? then [old(sendChan)[0]] else []
    {
      var msg := sendChan[0];
      sendChan := sendChan[1..];
      if d.NoStream? {
        if Code(msg.kind) == retriable {
          errorChan := errorChan + [SendJobError(KeyOf(msg.node), msg.jobName, msg.jobId)];
        }
        return;
      }
      if d.SendFailed? {
        if Code(msg.kind) == retriable {
          errorChan := errorChan + [SendJobError(KeyOf(msg.node), msg.jobName, msg.jobId)];
          return;
        }
        errorChan := errorChan + [OtherError];
        return;
      }
      delivered := delivered + [msg];
    }

    /** Up to three tries to find a node. */
    method PickNode() returns (node: Option<Node>, ghost tries: nat)
      requires dispatcher.Valid()
      modifies dispatcher`index
      ensures dispatcher.Valid()
      ensures PickedAfter(old(dispatcher.State()), tries, node)
      ensures 1 <= tries <= 3 && (node.None? ==> tries == 3)
      ensures dispatcher.State() == AfterDispatches(old(dispatcher.State()), tries)
      ensures node.Some? ==> KeyOf(node.value) in dispatcher.nodes
    {
      hide KeyOf, GrpcDispatcher.Queue, Dispatched, AfterDispatch;
      ghost var p := dispatcher.State();
      node, tries := None, 0;
      var retry := 0;
      while retry < 3 && node.None?
        invariant 0 <= retry <= 3 && tries == retry
        invariant dispatcher.Valid() && dispatcher.State() == AfterDispatches(p, tries)
        invariant if tries == 0 then node.None? else node == Dispatched(AfterDispatches(p, tries - 1))
        invariant forall j: nat :: j + 1 < tries ==> Dispatched(AfterDispatches(p, j)).None?
        invariant node.Some? ==> KeyOf(node.value) in dispatcher.nodes
      {
        DispatchReturns(dispatcher);
        node := dispatcher.DispatchNode();
        retry := retry + 1;
        tries := tries + 1;
      }
    }

    /** One message to the node picked. `jobExists` says whether the job's file can be read. */
    method DispatchJob(name: string, id: Int64, jobExists: bool)
      returns (ok: bool, ghost node: Option<Node>, ghost tries: nat)
      requires dispatcher.Valid()
      modifies this`sendChan, dispatcher`index, dispatcher`jobNodeMap
      ensures dispatcher.Valid()
      ensures ok <==> node.Some? && jobExists
      ensures Forwarded(old(dispatcher.State()), dispatcher.State(), tries, node, name, id, jobExists,
                        old(sendChan), sendChan)
      ensures node.Some? ==> KeyOf(node.value) in dispatcher.nodes
    {
      hide FormatJobToString, KeyOf, GrpcDispatcher.Valid, GrpcDispatcher.Queue, PickedAfter, AfterDispatches;
      hide AfterSend;
      var picked;
      picked, tries := PickNode();
      node := picked;
      if picked.None? {
        return false, node, tries;
      }
      if !jobExists {
        return false, node, tries;
      }
      var msg := dispatcher.SendJob(name, id, picked.value);
      sendChan := sendChan + [msg];
      return true, node, tries;
    }

    /** One turn of the error handler. */
    method HandleError(jobExists: bool) returns (ghost node: Option<Node>, ghost tries: nat)
      requires dispatcher.Valid() && errorChan != []
      modifies this`sendChan, this`errorChan, dispatcher
      ensures dispatcher.Valid()
      ensures errorChan == old(errorChan)[1..] && delivered == old(delivered)
      ensures old(errorChan)[0].SendJobError? ==>
                var e := old(errorChan)[0];
                && dispatcher.nodes == old(dispatcher.nodes) - {e.errorNode}
                && Forwarded(AfterUnregister(old(dispatcher.State()), e.errorNode), dispatcher.State(), tries, node,
                             e.jobName, e.jobId, jobExists, old(sendChan), sendChan)
                && (node.Some? ==> KeyOf(node.value) in dispatcher.nodes)
      ensures old(errorChan)[0].OtherError? ==>
              sendChan == old(sendChan) && dispatcher.State() == old(dispatcher.State())
    {
      hide KeyOf, GrpcDispatcher.Queue, AfterUnregister, Forwarded;
      node, tries := None, 0;
      var err := errorChan[0];
      errorChan := errorChan[1..];
      match err
      case SendJobError(errorNode, jobName, jobId) =>
        var _ := dispatcher.UnRegisterWithKey(errorNode);
        var ok;
        ok, node, tries := DispatchJob(jobName, jobId, jobExists);
      case OtherError =>
    }

    /** One job alone, for the retriable type and with no new registrations: the nodes are tried in
        queue order, each once; the first that takes the job keeps it, and those before it are gone. */
    method DispatchUntilSettled(name: string, id: Int64, up: string -> Delivery)
      requires dispatcher.Valid() && Sound(dispatcher.State()) && Agrees(dispatcher.State())
      requires retriable == Code(Execute) && sendChan == [] && errorChan == []
      modifies this, dispatcher
      ensures dispatcher.Valid() && sendChan == [] && errorChan == []
      ensures var p := old(dispatcher.State()); var k := FirstUp(p.queue, up); var r := dispatcher.State();
              && Agrees(r)
              && r.nodes == p.nodes - Members(p.queue[..k])
              && r.queue == (if k < |p.queue| then p.queue[k + 1..] + [p.queue[k]] else [])
              && (k < |p.queue| ==> p.queue[k] in p.nodes)
              && delivered
                 == old(delivered)
                    + (if k < |p.queue| then [Message(p.nodes[p.queue[k]].node, Execute, name, id)] else [])
              && NodesOf(r.history, name, id)
                 == NodesOf(p.history, name, id) + NodesAt(p.nodes, if k < |p.queue| then p.queue[..k + 1] else p.queue)
    {
      hide KeyOf, GrpcDispatcher.Valid, GrpcDispatcher.Queue, Agrees, Sound, NodesOf, NodesAt, TriedUpTo;
      hide AfterUnregister;
      hide Dispatched, AfterDispatch, AfterSend, Sent, FirstUp, InFlight, Forwarded;
      ghost var p0 := dispatcher.State();
      ghost var p, k := p0, 0;
      NothingTried(p0, name, id);
      NextTurn(p0, p, 0, name, id, up);
      var ok;
      ghost var node, tries;
      ok, node, tries := DispatchJob(name, id, true);
      ForwardedToHead(p0, dispatcher.State(), tries, node, name, id, [], sendChan);
      while ok
        invariant dispatcher.Valid() && errorChan == [] && delivered == old(delivered)
        invariant TriedUpTo(p0, p, k, name, id) && k <= FirstUp(p0.queue, up)
        invariant ok ==> InFlight(p0, p, k, dispatcher.State(), sendChan, name, id)
        invariant !ok ==> k == |p0.queue| && sendChan == [] && SamePool(dispatcher.State(), p)
        decreases |p0.queue| - k, ok
      {
        NextTurn(p0, p, k, name, id, up);
        InFlightMessage(p0, p, k, dispatcher.State(), sendChan, name, id);
        SendNext(up(KeyOf(sendChan[0].node)));
        if errorChan == [] {
          break;
        }
        ghost var next := AfterUnregister(Sent(p, name, id), p0.queue[k]);
        NextTurn(p0, next, k + 1, name, id, up);
        node, tries := HandleError(true);
        ForwardedToHead(next, dispatcher.State(), tries, node, name, id, [], sendChan);
        p, k := next, k + 1;
        ok := sendChan != [];
      }
      Settled(p0, p, k, dispatcher.State(), name, id);
    }

    /** One turn of the send loop brings the end closer. */
    method SendTurn(d: Delivery)
      requires dispatcher.Valid() && sendChan != []
      modifies this
      ensures dispatcher.Valid() && SendStep(old(State()), State(), retriable, d) && old(delivered) <= delivered
      ensures |sendChan| == |old(sendChan)| - 1 && |errorChan| <= |old(errorChan)| + 1
      ensures Stale(sendChan, errorChan, dispatcher.nodes.Keys)
              <= Stale(old(sendChan), old(errorChan), dispatcher.nodes.Keys)
    {
      hide GrpcDispatcher.Valid, GrpcDispatcher.Queue, KeyOf, Stale, Reported;
      SendTurnProgress(sendChan, errorChan, dispatcher.nodes.Keys, retriable, d);
      SendNext(d);
    }

    /** So does one turn of the error handler. */
    method ErrorTurn(jobExists: bool)
      requires dispatcher.Valid() && errorChan != []
      modifies this`sendChan, this`errorChan, dispatcher
      ensures dispatcher.Valid() && ErrorStep(old(State()), State(), jobExists) && old(delivered) <= delivered
      ensures dispatcher.nodes.Keys <= old(dispatcher.nodes.Keys)
      ensures var nodes, was := dispatcher.nodes, old(dispatcher.nodes);
              || |nodes| < |was|
              || (nodes == was && Stale(sendChan, errorChan, was.Keys) < Stale(old(sendChan), old(errorChan), was.Keys))
              || (nodes == was && sendChan == old(sendChan) && |errorChan| < |old(errorChan)|
                  && Stale(sendChan, errorChan, was.Keys) <= Stale(old(sendChan), old(errorChan), was.Keys))
    {
      hide GrpcDispatcher.Valid, GrpcDispatcher.Queue, KeyOf, Stale, Forwarded, AfterUnregister;
      ghost var p, s, e := dispatcher.State(), sendChan, errorChan;
      ghost var node, tries := HandleError(jobExists);
      if e[0].SendJobError? {
        ForwardedOnce(AfterUnregister(p, e[0].errorNode), dispatcher.State(), tries, node, e[0].jobName, e[0].jobId,
                      jobExists, s, sendChan);
      }
      ErrorTurnProgress(s, e, p.nodes, sendChan, dispatcher.nodes);
    }

    /** Both loops, taking turns as `errorTurn` says, until the channels are empty: with no new
        registrations and whatever the network does, they always become empty. For the retriable type, and whatever
        other jobs are in flight, a job waiting once in the channels goes through a chain of nodes. */
    method Settle(net: nat -> Delivery, errorTurn: nat -> bool, jobExists: nat -> bool, ghost name: string,
                  ghost id: Int64)
      returns (ghost run: seq<MasterState>, ghost chain: Chain)
      requires dispatcher.Valid()
      modifies this, dispatcher
      ensures sendChan == [] && errorChan == []
      ensures dispatcher.Valid() && dispatcher.nodes.Keys <= old(dispatcher.nodes.Keys)
      ensures old(delivered) <= delivered
      ensures IsRun(run, retriable, net, errorTurn, jobExists) && run[0] == old(State()) && Last(run) == State()
      ensures retriable == Code(Execute) && |Waiting(old(sendChan), old(errorChan), name, id)| == 1 ==>
                && chain.tried != [] && IsChain(chain, old(dispatcher.nodes.Keys))
                && Waiting(old(sendChan), old(errorChan), name, id) == [chain.tried[0]]
                && NodesOf(dispatcher.jobNodeMap, name, id)
                   == NodesOf(old(dispatcher.jobNodeMap), name, id) + chain.sent
                && HasEnded(chain, run, jobExists, Arrivals(delivered[|old(delivered)|..], name, id), name, id)
    {
      hide GrpcDispatcher.Valid, GrpcDispatcher.Queue, KeyOf, Stale, NodesOf, SendStep, ErrorStep;
      hide IsChain, HasEnded, Waiting, Arrivals, FormatJobToString;
      ghost var keys := dispatcher.nodes.Keys;
      run, chain := [State()], Chain([], [], None);
      var turn := 0;
      while sendChan != [] || errorChan != []
        invariant dispatcher.Valid() && dispatcher.nodes.Keys <= keys && old(delivered) <= delivered
        invariant |run| == turn + 1 && run[0] == old(State()) && Last(run) == State()
        invariant IsRun(run, retriable, net, errorTurn, jobExists)
        decreases |dispatcher.nodes|, Stale(sendChan, errorChan, dispatcher.nodes.Keys), 2 * |sendChan| + |errorChan|
      {
        if errorChan != [] && (sendChan == [] || errorTurn(turn)) {
          ErrorTurn(jobExists(turn));
        } else {
          SendTurn(net(turn));
        }
        OneMoreTurn(run, State(), retriable, net, errorTurn, jobExists);
        run := run + [State()];
        turn := turn + 1;
      }
      if retriable == Code(Execute) && |Waiting(old(sendChan), old(errorChan), name, id)| == 1 {
        chain := ChainOfRun(run, net, errorTurn, jobExists, name, id);
      }
    }

    /** A job sent to a node, among any others: it is tried on registered nodes, on none of them twice, and so on no
        more of them than there are, until one takes it or there is none left to find or no file to read. */
    method DispatchAndSettle(name: string, id: Int64, exists0: bool, net: nat -> Delivery, errorTurn: nat -> bool,
                             jobExists: nat -> bool)
      returns (ok: bool, ghost first: Option<Node>, ghost run: seq<MasterState>, ghost chain: Chain)
      requires dispatcher.Valid() && retriable == Code(Execute)
      requires Waiting(sendChan, errorChan, name, id) == []
      modifies this, dispatcher
      ensures dispatcher.Valid() && sendChan == [] && errorChan == [] && old(delivered) <= delivered
      ensures ok <==> first.Some? && exists0
      ensures IsRun(run, retriable, net, errorTurn, jobExists) && Last(run) == State()
      ensures run[0].errors == old(errorChan) && run[0].delivered == old(delivered)
      ensures exists tries :: Forwarded(old(dispatcher.State()), run[0].pool, tries, first, name, id, exists0,
                                        old(sendChan), run[0].send)
      ensures ok ==>
                && IsChain(chain, old(dispatcher.nodes.Keys))
                && chain.tried[0] == KeyOf(first.value) && chain.tried[0] in old(dispatcher.nodes)
                && |chain.tried| <= |old(dispatcher.nodes)|
                && NodesOf(dispatcher.jobNodeMap, name, id)
                   == NodesOf(old(dispatcher.jobNodeMap), name, id) + [first.value] + chain.sent
                && HasEnded(chain, run, jobExists, Arrivals(delivered[|old(delivered)|..], name, id), name, id)
    {
      hide GrpcDispatcher.Valid, GrpcDispatcher.Queue, KeyOf, Waiting, IsChain, HasEnded, Arrivals, FormatJobToString;
      hide AfterDispatches, PickedAfter, NodesOf, AfterSend, IsRun;
      ghost var p, s, e := dispatcher.State(), sendChan, errorChan;
      ghost var tries;
      ok, first, tries := DispatchJob(name, id, exists0);
      if ok {
        JustSentWaits(p, dispatcher.State(), s, e, tries, first.value, name, id);
      }
      run, chain := Settle(net, errorTurn, jobExists, name, id);
      if ok {
        assert chain.tried[0] == [chain.tried[0]][0] == [KeyOf(first.value)][0];
        ChainIsShort(chain, p.nodes.Keys);
      }
    }
  }

  // ---- the turns of a run ----

  ghost predicate SendStep(s: MasterState, r: MasterState, retriable: nat, d: Delivery) {
    && s.send != [] && r.send == s.send[1..] && r.pool == s.pool
    && r.errors == s.errors + Reported(retriable, s.send[0], d)
    && r.delivered == s.delivered + if d.Delivered? then [s.send[0]] else []
  }

  ghost predicate ErrorStep(s: MasterState, r: MasterState, jobExists: bool) {
    && s.errors != [] && r.errors == s.errors[1..] && r.delivered == s.delivered
    && match s.errors[0]
       case SendJobError(key, name, id) =>
         && r.pool.nodes == s.pool.nodes - {key}
         && (exists tries, node: Option<Node> ::
               && Forwarded(AfterUnregister(s.pool, key), r.pool, tries, node, name, id, jobExists, s.send, r.send)
               && (node.Some? ==> KeyOf(node.value) in r.pool.nodes))
       case OtherError => r.pool == s.pool && r.send == s.send
  }

  /** The error handler takes its turn when there is an error and no message, or when it is its turn. */
  ghost predicate TurnOf(s: MasterState, r: MasterState, retriable: nat, d: Delivery, errorTurn: bool,
                         jobExists: bool)
  {
    if s.errors != [] && (s.send == [] || errorTurn) then ErrorStep(s, r, jobExists)
    else SendStep(s, r, retriable, d)
  }

  ghost predicate IsRun(run: seq<MasterState>, retriable: nat, net: nat -> Delivery, errorTurn: nat -> bool,
                        jobExists: nat -> bool)
  {
    && run != []
    && forall t :: 0 <= t < |run| - 1 ==> TurnOf(run[t], run[t + 1], retriable, net(t), errorTurn(t), jobExists(t))
  }

  function Last(run: seq<MasterState>): MasterState
    requires run != []
  {
    run[|run| - 1]
  }

  lemma OneMoreTurn(run: seq<MasterState>, r: MasterState, retriable: nat, net: nat -> Delivery,
                    errorTurn: nat -> bool, jobExists: nat -> bool)
    requires IsRun(run, retriable, net, errorTurn, jobExists)
    requires var t := |run| - 1; TurnOf(run[t], r, retriable, net(t), errorTurn(t), jobExists(t))
    ensures IsRun(run + [r], retriable, net, errorTurn, jobExists)
  {
    hide TurnOf;
  }

  // ---- picking a node ----

  function AfterDispatches(p: Pool, tries: nat): Pool {
    if tries == 0 then p else AfterDispatch(AfterDispatches(p, tries - 1))
  }

  /** `node` is what the last of at most three dispatches returned; all before it found none, and only
      the third may find none itself. */
  ghost predicate PickedAfter(p: Pool, tries: nat, node: Option<Node>) {
    && 1 <= tries <= 3
    && (forall j: nat :: j + 1 < tries ==> Dispatched(AfterDispatches(p, j)).None?)
    && node == Dispatched(AfterDispatches(p, tries - 1))
    && (node.None? ==> tries == 3)
  }

  /** A node was picked and, if it and the job's file exist, sent the job. */
  ghost predicate Forwarded(p: Pool, r: Pool, tries: nat, node: Option<Node>, name: string, id: Int64, jobExists: bool,
                            before: seq<Message>, after: seq<Message>) {
    && PickedAfter(p, tries, node)
    && if node.Some? && jobExists then
         && after == before + [Message(node.value, Execute, name, id)]
         && r == AfterSend(AfterDispatches(p, tries), name, id, node.value)
       else
         after == before && r == AfterDispatches(p, tries)
  }

  /** When the head of the queue is registered, the job goes there. */
  lemma ForwardedToHead(p: Pool, r: Pool, tries: nat, node: Option<Node>, name: string, id: Int64,
                        before: seq<Message>, after: seq<Message>)
    requires Forwarded(p, r, tries, node, name, id, true, before, after)
    ensures Dispatched(p).Some? ==>
              && node == Dispatched(p) && r == Sent(p, name, id)
              && after == before + [Message(Dispatched(p).value, Execute, name, id)]
    ensures p.queue == [] ==> node.None? && SamePool(r, p) && after == before
  {
    hide Dispatched, AfterDispatch, AfterSend;
    assert AfterDispatches(p, 0) == p;
    assert AfterDispatches(p, 1) == AfterDispatch(p);
    if p.queue == [] {
      EmptyStaysEmpty(p, tries);
      EmptyStaysEmpty(p, tries - 1);
    } else if Dispatched(p).Some? {
      assert tries == 1;
    }
  }

  lemma ForwardedOnce(p: Pool, r: Pool, tries: nat, node: Option<Node>, name: string, id: Int64, readable: bool,
                      before: seq<Message>, after: seq<Message>)
    requires Forwarded(p, r, tries, node, name, id, readable, before, after)
    ensures after == before || (node.Some? && after == before + [Message(node.value, Execute, name, id)])
  {
    hide PickedAfter, AfterDispatches;
  }

  lemma {:induction false} EmptyStaysEmpty(p: Pool, tries: nat)
    requires p.queue == []
    ensures AfterDispatches(p, tries) == p && Dispatched(p).None?
  {
    if tries > 0 {
      EmptyStaysEmpty(p, tries - 1);
    }
  }

  /** `Dispatched` is what the dispatcher is about to return. */
  lemma DispatchReturns(d: GrpcDispatcher)
    requires d.Valid()
    ensures Dispatched(d.State())
            == if d.Queue() != [] && d.Queue()[0] in d.nodes then Some(d.nodes[d.Queue()[0]].node) else None
    ensures Dispatched(d.State()).Some? ==> KeyOf(Dispatched(d.State()).value) in d.nodes
  {
    hide KeyOf;
  }

  // ---- one job's chain of sends ----

  /** The first key whose node takes the message, or the length of the queue. */
  function FirstUp(q: seq<string>, up: string -> Delivery): (k: nat)
    ensures k <= |q|
  {
    if q == [] || up(q[0]).Delivered? then 0 else 1 + FirstUp(q[1..], up)
  }

  /** The state in which the first `k` nodes of `p0`'s queue were sent the job and then removed. */
  ghost predicate TriedUpTo(p0: Pool, p: Pool, k: nat, name: string, id: Int64) {
    && k <= |p0.queue| && p.queue == p0.queue[k..]
    && p.nodes == p0.nodes - Members(p0.queue[..k])
    && Agrees(p0) && Sound(p0) && Sound(p)
    && NodesOf(p.history, name, id) == NodesOf(p0.history, name, id) + NodesAt(p0.nodes, p0.queue[..k])
  }

  ghost function NodesAt(nodes: map<string, NodeInfo>, keys: seq<string>): seq<Node> {
    if keys == [] then []
    else NodesAt(nodes, keys[..|keys| - 1]) + if keys[|keys| - 1] in nodes then [nodes[keys[|keys| - 1]].node] else []
  }

  /** The state after the job was sent to the next node. */
  function Sent(p: Pool, name: string, id: Int64): Pool {
    match Dispatched(p)
    case None => AfterDispatch(p)
    case Some(node) => AfterSend(AfterDispatch(p), name, id, node)
  }

  lemma NextNode(p0: Pool, p: Pool, k: nat, name: string, id: Int64)
    requires TriedUpTo(p0, p, k, name, id) && k < |p0.queue|
    ensures p.queue != [] && p.queue[0] == p0.queue[k]
    ensures p0.queue[k] in p0.nodes && p0.queue[k] in p.nodes
    ensures Dispatched(p) == Some(p0.nodes[p0.queue[k]].node)
    ensures KeyOf(p0.nodes[p0.queue[k]].node) == p0.queue[k]
  {
    hide KeyOf, NodesOf, NodesAt, Distinct;
    MemberOf(p0.queue, p0.queue[k]);
    NotYetTried(p0.queue, k);
  }

  lemma NotYetTried(q: seq<string>, k: nat)
    requires Distinct(q) && k < |q|
    ensures q[k] !in Members(q[..k])
    ensures Members(q[..k + 1]) == Members(q[..k]) + {q[k]}
    ensures q[..k + 1] == q[..k] + [q[k]] && q[k..][1..] == q[k + 1..]
  {
    assert q[..k + 1] == q[..k] + [q[k]];
  }

  lemma OneMoreNode(nodes: map<string, NodeInfo>, q: seq<string>, k: nat)
    requires k < |q| && q[k] in nodes
    ensures NodesAt(nodes, q[..k + 1]) == NodesAt(nodes, q[..k]) + [nodes[q[k]].node]
  {
    assert q[..k + 1][..k] == q[..k];
  }

  lemma SentState(p0: Pool, p: Pool, k: nat, name: string, id: Int64)
    requires TriedUpTo(p0, p, k, name, id) && k < |p0.queue|
    ensures var r := Sent(p, name, id);
            && r.queue == p0.queue[k + 1..] + [p0.queue[k]]
            && r.nodes == p.nodes
            && NodesOf(r.history, name, id) == NodesOf(p0.history, name, id) + NodesAt(p0.nodes, p0.queue[..k + 1])
            && Sound(r)
  {
    hide KeyOf, FormatJobToString, Agrees, Sound, NodesAt, Dispatched;
    NextNode(p0, p, k, name, id);
    assert p0.queue[k..][1..] == p0.queue[k + 1..];
    var node := p0.nodes[p0.queue[k]].node;
    StepIsSound(p, DispatchOp);
    StepIsSound(AfterDispatch(p), SendOp(name, id, node));
    OneMoreNode(p0.nodes, p0.queue, k);
  }

  /** When that send fails, exactly the node it was addressed to is removed. */
  lemma NextTry(p0: Pool, p: Pool, k: nat, name: string, id: Int64)
    requires TriedUpTo(p0, p, k, name, id) && k < |p0.queue|
    ensures TriedUpTo(p0, AfterUnregister(Sent(p, name, id), p0.queue[k]), k + 1, name, id)
  {
    hide KeyOf, NodesOf, NodesAt, Distinct, Sent, Sound, Members;
    var r := Sent(p, name, id);
    SentState(p0, p, k, name, id);
    NextNode(p0, p, k, name, id);
    NotYetTried(p0.queue, k);
    StepIsSound(r, UnregisterOp(p0.queue[k]));
    assert r.nodes - {p0.queue[k]} == p0.nodes - Members(p0.queue[..k + 1]);
    assert (p0.queue[k + 1..] + [p0.queue[k]])[..|p0.queue| - k - 1] == p0.queue[k + 1..];
  }

  /** The nodes still registered are those not tried, and the node in flight is at the back. */
  lemma SentAgrees(p0: Pool, p: Pool, k: nat, name: string, id: Int64)
    requires TriedUpTo(p0, p, k, name, id)
    ensures Agrees(p)
    ensures k < |p0.queue| ==> Agrees(Sent(p, name, id))
  {
    hide KeyOf, NodesOf, NodesAt, Distinct;
    SuffixAgrees(p0.queue, k);
    RotateKeepsMembers(p.queue);
  }

  lemma SuffixAgrees(q: seq<string>, k: nat)
    requires Distinct(q) && k <= |q|
    ensures Distinct(q[k..]) && Members(q[k..]) == Members(q) - Members(q[..k])
  {
    assert q == q[..k] + q[k..];
  }

  ghost predicate SamePool(r: Pool, p: Pool) {
    r.queue == p.queue && r.nodes == p.nodes && r.history == p.history
  }

  /** The job's message to the node at place `k` waits in the channel. */
  ghost predicate InFlight(p0: Pool, p: Pool, k: nat, r: Pool, send: seq<Message>, name: string, id: Int64) {
    && k < |p0.queue| && p0.queue[k] in p0.nodes
    && send == [Message(p0.nodes[p0.queue[k]].node, Execute, name, id)]
    && r == Sent(p, name, id)
  }

  lemma InFlightMessage(p0: Pool, p: Pool, k: nat, r: Pool, send: seq<Message>, name: string, id: Int64)
    requires InFlight(p0, p, k, r, send, name, id)
    ensures k < |p0.queue| && p0.queue[k] in p0.nodes && r == Sent(p, name, id)
    ensures send == [Message(p0.nodes[p0.queue[k]].node, Execute, name, id)] && send[1..] == []
  {
    hide Sent;
  }

  lemma NothingTried(p: Pool, name: string, id: Int64)
    requires Sound(p) && Agrees(p)
    ensures TriedUpTo(p, p, 0, name, id)
  {
    hide KeyOf, NodesOf;
    assert p.queue[..0] == [] && Members([]) == {} && p.nodes - {} == p.nodes;
  }

  /** What the loop needs to know before its turn for place `k`. */
  lemma NextTurn(p0: Pool, p: Pool, k: nat, name: string, id: Int64, up: string -> Delivery)
    requires TriedUpTo(p0, p, k, name, id) && k <= FirstUp(p0.queue, up)
    ensures k <= |p0.queue| && (k == |p0.queue| ==> p.queue == [])
    ensures k < |p0.queue| ==>
              && p0.queue[k] in p0.nodes
              && Dispatched(p) == Some(p0.nodes[p0.queue[k]].node)
              && KeyOf(p0.nodes[p0.queue[k]].node) == p0.queue[k]
              && Sent(p, name, id) == AfterSend(AfterDispatch(p), name, id, p0.nodes[p0.queue[k]].node)
              && (up(p0.queue[k]).Delivered? <==> FirstUp(p0.queue, up) == k)
              && TriedUpTo(p0, AfterUnregister(Sent(p, name, id), p0.queue[k]), k + 1, name, id)
    ensures forall send :: k < |p0.queue| && send == [Message(p0.nodes[p0.queue[k]].node, Execute, name, id)] ==>
              InFlight(p0, p, k, Sent(p, name, id), send, name, id)
  {
    hide KeyOf, NodesOf, NodesAt, Distinct, AfterSend, AfterDispatch, Dispatched, AfterUnregister, Agrees, Sound;
    FirstUpFrom(p0.queue, up, k);
    if k < |p0.queue| {
      NextNode(p0, p, k, name, id);
      NextTry(p0, p, k, name, id);
    }
  }

  /** Where the chain ends. */
  lemma Settled(p0: Pool, p: Pool, k: nat, r: Pool, name: string, id: Int64)
    requires TriedUpTo(p0, p, k, name, id)
    requires if k < |p0.queue| then r == Sent(p, name, id) else SamePool(r, p)
    ensures Agrees(r) && r.nodes == p0.nodes - Members(p0.queue[..k])
    ensures r.queue == if k < |p0.queue| then p0.queue[k + 1..] + [p0.queue[k]] else []
    ensures NodesOf(r.history, name, id)
            == NodesOf(p0.history, name, id) + NodesAt(p0.nodes, if k < |p0.queue| then p0.queue[..k + 1] else p0.queue)
  {
    hide KeyOf, NodesOf, NodesAt, Distinct, Sent;
    SentAgrees(p0, p, k, name, id);
    if k < |p0.queue| {
      SentState(p0, p, k, name, id);
    } else {
      assert p0.queue[..k] == p0.queue;
    }
  }

  lemma {:induction false} FirstUpFrom(q: seq<string>, up: string -> Delivery, k: nat)
    requires k <= FirstUp(q, up)
    ensures FirstUp(q, up) == k + FirstUp(q[k..], up)
  {
    if k > 0 {
      FirstUpFrom(q[1..], up, k - 1);
      assert q[1..][k - 1..] == q[k..];
    } else {
      assert q[0..] == q;
    }
  }

  // ---- progress ----

  /** Messages and errors in flight about nodes that are no longer registered. */
  ghost function Stale(send: seq<Message>, errors: seq<ServerError>, keys: set<string>): nat {
    StaleSends(send, keys) + StaleErrors(errors, keys)
  }

  ghost function StaleSends(send: seq<Message>, keys: set<string>): nat {
    if send == [] then 0 else (if KeyOf(send[0].node) in keys then 0 else 1) + StaleSends(send[1..], keys)
  }

  ghost function StaleErrors(errors: seq<ServerError>, keys: set<string>): nat {
    if errors == [] then 0
    else (if errors[0].SendJobError? && errors[0].errorNode !in keys then 1 else 0) + StaleErrors(errors[1..], keys)
  }

  lemma {:induction false} StaleSendsSnoc(send: seq<Message>, m: Message, keys: set<string>)
    ensures StaleSends(send + [m], keys) == StaleSends(send, keys) + if KeyOf(m.node) in keys then 0 else 1
  {
    hide KeyOf;
    if send == [] {
      assert [m][1..] == [];
    } else {
      assert (send + [m])[1..] == send[1..] + [m];
      StaleSendsSnoc(send[1..], m, keys);
    }
  }

  lemma {:induction false} StaleErrorsSnoc(errors: seq<ServerError>, e: ServerError, keys: set<string>)
    ensures StaleErrors(errors + [e], keys)
            == StaleErrors(errors, keys) + if e.SendJobError? && e.errorNode !in keys then 1 else 0
  {
    if errors == [] {
      assert [e][1..] == [];
    } else {
      assert (errors + [e])[1..] == errors[1..] + [e];
      StaleErrorsSnoc(errors[1..], e, keys);
    }
  }

  /** A turn of the send loop shortens the work and makes nothing stale. */
  lemma SendTurnProgress(send: seq<Message>, errors: seq<ServerError>, keys: set<string>, retriable: nat, d: Delivery)
    requires send != []
    ensures Stale(send[1..], errors + Reported(retriable, send[0], d), keys) <= Stale(send, errors, keys)
    ensures |Reported(retriable, send[0], d)| <= 1
  {
    hide KeyOf;
    var r := Reported(retriable, send[0], d);
    if r != [] {
      StaleErrorsSnoc(errors, r[0], keys);
      assert r == [r[0]];
    } else {
      assert errors + r == errors;
    }
  }

  /** A turn of the error handler either removes a node, or uses up a stale error, or drops an error
      that is not about a job. */
  lemma ErrorTurnProgress(send: seq<Message>, errors: seq<ServerError>, nodes: map<string, NodeInfo>,
                          nextSend: seq<Message>, nextNodes: map<string, NodeInfo>)
    requires errors != []
    requires nextNodes == if errors[0].SendJobError? then nodes - {errors[0].errorNode} else nodes
    requires nextSend == send
             || exists m: Message :: errors[0].SendJobError? && KeyOf(m.node) in nextNodes && nextSend == send + [m]
    ensures nextNodes.Keys <= nodes.Keys
    ensures || |nextNodes| < |nodes|
            || (nextNodes == nodes && Stale(nextSend, errors[1..], nodes.Keys) < Stale(send, errors, nodes.Keys))
            || (nextNodes == nodes && nextSend == send
                && Stale(send, errors[1..], nodes.Keys) <= Stale(send, errors, nodes.Keys))
  {
    hide KeyOf;
    if errors[0].SendJobError? {
      var key := errors[0].errorNode;
      if key in nodes {
        SizeWithout(nodes, key);
      } else {
        assert nodes - {key} == nodes;
        if nextSend != send {
          var m: Message :| KeyOf(m.node) in nextNodes && nextSend == send + [m];
          StaleSendsSnoc(send, m, nodes.Keys);
        }
      }
    }
  }

  // ---- a job's chain of nodes, among any other jobs ----

  /** A failed dispatch: in which turn, from which state of the dispatcher, and whether the job's file could be read. */
  datatype Failure = Failure(turn: nat, pool: Pool, readable: bool)

  /** The keys a job was tried on, the nodes it was sent to after the first, and how it failed, if it did. */
  datatype Chain = Chain(tried: seq<string>, sent: seq<Node>, failure: Option<Failure>)

  predicate IsAbout(m: Message, name: string, id: Int64) {
    m.kind == Execute && m.jobName == name && m.jobId == id
  }

  function WaitingSends(send: seq<Message>, name: string, id: Int64): seq<string> {
    if send == [] then []
    else (if IsAbout(send[0], name, id) then [KeyOf(send[0].node)] else []) + WaitingSends(send[1..], name, id)
  }

  predicate IsErrorAbout(e: ServerError, name: string, id: Int64) {
    e.SendJobError? && e.jobName == name && e.jobId == id
  }

  function WaitingErrors(errors: seq<ServerError>, name: string, id: Int64): seq<string> {
    if errors == [] then []
    else
      (if IsErrorAbout(errors[0], name, id) then [errors[0].errorNode] else [])
      + WaitingErrors(errors[1..], name, id)
  }

  /** The keys of the nodes a job waits for in the channels, whether to be sent or to be sent again. */
  function Waiting(send: seq<Message>, errors: seq<ServerError>, name: string, id: Int64): seq<string> {
    WaitingErrors(errors, name, id) + WaitingSends(send, name, id)
  }

  /** The nodes that took the job, in order. */
  function Arrivals(delivered: seq<Message>, name: string, id: Int64): seq<string> {
    WaitingSends(delivered, name, id)
  }

  function LastTried(c: Chain): string
    requires c.tried != []
  {
    c.tried[|c.tried| - 1]
  }

  /** No key is tried twice, all but the first belong to nodes registered at the start, and the nodes sent to are
      those of the keys tried. */
  ghost predicate IsChain(c: Chain, keys: set<string>) {
    && c.tried != [] && Distinct(c.tried)
    && (forall i :: 1 <= i < |c.tried| ==> c.tried[i] in keys)
    && |c.sent| == |c.tried| - 1
    && (forall i :: 0 <= i < |c.sent| ==> KeyOf(c.sent[i]) == c.tried[i + 1])
    && |c.tried| <= |keys| + 1
  }

  /** The last dispatch found no node, or no file, with the node tried last unregistered. */
  ghost predicate HasFailed(f: Failure, key: string) {
    key !in f.pool.nodes && (!f.readable || exists tries :: PickedAfter(f.pool, tries, None))
  }

  /** The failed dispatch was that of a turn of `run` which handled the error about the node tried last. */
  ghost predicate HappenedIn(f: Failure, key: string, run: seq<MasterState>, jobExists: nat -> bool, name: string,
                             id: Int64)
  {
    && f.turn + 1 < |run| && run[f.turn].errors != []
    && IsErrorAbout(run[f.turn].errors[0], name, id) && run[f.turn].errors[0].errorNode == key
    && ErrorStep(run[f.turn], run[f.turn + 1], jobExists(f.turn))
    && f.pool == AfterUnregister(run[f.turn].pool, key) && f.readable == jobExists(f.turn)
  }

  /** The node tried last took the job and no other did; or none did, and the dispatch that followed it failed. */
  ghost predicate HasEnded(c: Chain, run: seq<MasterState>, jobExists: nat -> bool, arrivals: seq<string>, name: string,
                           id: Int64)
    requires c.tried != []
  {
    match c.failure
    case None => arrivals == [LastTried(c)]
    case Some(f) =>
      arrivals == [] && HasFailed(f, LastTried(c)) && HappenedIn(f, LastTried(c), run, jobExists, name, id)
  }

  /** Where the chain stands: waiting for the node tried last, or ended; and every node tried before that is gone. */
  ghost predicate OnChain(c: Chain, keys: set<string>, hist: seq<Node>, p: Pool, send: seq<Message>,
                          errors: seq<ServerError>, since: seq<Message>, name: string, id: Int64)
  {
    && c.tried != [] && Distinct(c.tried) && p.nodes.Keys <= keys
    && (forall i :: 1 <= i < |c.tried| ==> c.tried[i] in keys)
    && (forall i :: 0 <= i < |c.tried| - 1 ==> c.tried[i] !in p.nodes)
    && |c.sent| == |c.tried| - 1
    && (forall i :: 0 <= i < |c.sent| ==> KeyOf(c.sent[i]) == c.tried[i + 1])
    && NodesOf(p.history, name, id) == hist + c.sent
    && Stands(c, Waiting(send, errors, name, id), Arrivals(since, name, id))
  }

  ghost predicate Stands(c: Chain, waiting: seq<string>, arrivals: seq<string>)
    requires c.tried != []
  {
    if waiting != [] then waiting == [LastTried(c)] && arrivals == [] && c.failure.None?
    else match c.failure
      case None => arrivals == [LastTried(c)]
      case Some(f) => arrivals == [] && HasFailed(f, LastTried(c))
  }

  lemma ChainBegins(keys: set<string>, hist: seq<Node>, p: Pool, send: seq<Message>, errors: seq<ServerError>,
                    name: string, id: Int64)
    requires |Waiting(send, errors, name, id)| == 1 && p.nodes.Keys <= keys && NodesOf(p.history, name, id) == hist
    ensures OnChain(Chain(Waiting(send, errors, name, id), [], None), keys, hist, p, send, errors, [], name, id)
  {
    hide KeyOf, FormatJobToString, Waiting;
    assert hist + [] == hist;
  }

  lemma {:induction false} SendsAppend(send: seq<Message>, m: Message, name: string, id: Int64)
    ensures WaitingSends(send + [m], name, id)
            == WaitingSends(send, name, id) + if IsAbout(m, name, id) then [KeyOf(m.node)] else []
  {
    hide KeyOf, IsAbout;
    if send == [] {
      assert send + [m] == [m] && [m][1..] == [];
    } else {
      SendsAppend(send[1..], m, name, id);
      assert (send + [m])[1..] == send[1..] + [m];
    }
  }

  lemma {:induction false} ErrorsAppend(errors: seq<ServerError>, e: ServerError, name: string, id: Int64)
    ensures WaitingErrors(errors + [e], name, id)
            == WaitingErrors(errors, name, id) + if IsErrorAbout(e, name, id) then [e.errorNode] else []
  {
    hide IsErrorAbout;
    if errors == [] {
      assert errors + [e] == [e] && [e][1..] == [];
    } else {
      ErrorsAppend(errors[1..], e, name, id);
      assert (errors + [e])[1..] == errors[1..] + [e];
    }
  }

  /** What a turn of the send loop does to the waiting keys of a job. */
  lemma SendWaits(send: seq<Message>, errors: seq<ServerError>, d: Delivery, name: string, id: Int64)
    requires send != []
    ensures var r := Reported(Code(Execute), send[0], d);
            var about := IsAbout(send[0], name, id);
            && WaitingSends(send, name, id)
                == (if about then [KeyOf(send[0].node)] else []) + WaitingSends(send[1..], name, id)
            && WaitingErrors(errors + r, name, id)
               == WaitingErrors(errors, name, id) + if about && !d.Delivered? then [KeyOf(send[0].node)] else []
  {
    hide KeyOf;
    var r := Reported(Code(Execute), send[0], d);
    if r == [] {
      assert errors + r == errors;
    } else {
      ErrorsAppend(errors, r[0], name, id);
      assert r == [r[0]];
    }
  }

  lemma ArrivalsAppend(since: seq<Message>, m: Message, d: Delivery, name: string, id: Int64)
    ensures Arrivals(since + (if d.Delivered? then [m] else []), name, id)
            == Arrivals(since, name, id) + if d.Delivered? && IsAbout(m, name, id) then [KeyOf(m.node)] else []
  {
    hide KeyOf, IsAbout;
    SendsAppend(since, m, name, id);
    assert since + [] == since;
  }

  lemma SendKeepsChain(c: Chain, keys: set<string>, hist: seq<Node>, p: Pool, send: seq<Message>,
                       errors: seq<ServerError>, since: seq<Message>, d: Delivery, name: string, id: Int64)
    requires send != [] && OnChain(c, keys, hist, p, send, errors, since, name, id)
    ensures OnChain(c, keys, hist, p, send[1..], errors + Reported(Code(Execute), send[0], d),
                    since + (if d.Delivered? then [send[0]] else []), name, id)
  {
    hide KeyOf, NodesOf, IsAbout, Reported, WaitingSends, WaitingErrors, Arrivals, Distinct, HasFailed;
    SendWaits(send, errors, d, name, id);
    ArrivalsAppend(since, send[0], d, name, id);
    OnlyOneWaits(WaitingErrors(errors, name, id), if IsAbout(send[0], name, id) then [KeyOf(send[0].node)] else [],
                 WaitingSends(send[1..], name, id));
  }

  /** Three parts of a list of at most one. */
  lemma OnlyOneWaits(a: seq<string>, b: seq<string>, c: seq<string>)
    ensures |a + (b + c)| <= 1 && b != [] ==> a == [] && c == [] && a + (b + c) == b && (a + b) + c == b
    ensures b == [] ==> a + (b + c) == a + c && (a + []) + c == a + c
  {
  }

  lemma HistoryOfOthers(p: Pool, m: string, j: Int64, node: Node, name: string, id: Int64)
    ensures NodesOf(AfterSend(p, m, j, node).history, name, id)
            == NodesOf(p.history, name, id) + if m == name && j == id then [node] else []
  {
    hide FormatJobToString;
    if FormatJobToString(m, j) == FormatJobToString(name, id) {
      FormatIsInjective(m, j, name, id);
    }
  }

  lemma {:induction false} DispatchesKeep(p: Pool, tries: nat)
    ensures AfterDispatches(p, tries).history == p.history && AfterDispatches(p, tries).nodes == p.nodes
  {
    if tries > 0 {
      DispatchesKeep(p, tries - 1);
    }
  }

  /** What a turn of the error handler does to the waiting keys and the history of a job. */
  lemma ErrorWaits(p: Pool, r: Pool, send: seq<Message>, errors: seq<ServerError>, next: seq<Message>, tries: nat,
                   node: Option<Node>, readable: bool, name: string, id: Int64)
    requires errors != []
    requires errors[0].SendJobError? ==>
               Forwarded(AfterUnregister(p, errors[0].errorNode), r, tries, node, errors[0].jobName, errors[0].jobId,
                         readable, send, next)
    requires errors[0].OtherError? ==> next == send && r == p
    ensures var about := IsErrorAbout(errors[0], name, id); var goes := about && node.Some? && readable;
            && WaitingErrors(errors, name, id)
               == (if about then [errors[0].errorNode] else []) + WaitingErrors(errors[1..], name, id)
            && WaitingSends(next, name, id) == WaitingSends(send, name, id) + (if goes then [KeyOf(node.value)] else [])
            && NodesOf(r.history, name, id) == NodesOf(p.history, name, id) + if goes then [node.value] else []
  {
    hide KeyOf, NodesOf, FormatJobToString, PickedAfter, AfterDispatches;
    if errors[0].SendJobError? {
      var e, q := errors[0], AfterUnregister(p, errors[0].errorNode);
      DispatchesKeep(q, tries);
      if node.Some? && readable {
        SendsAppend(send, Message(node.value, Execute, e.jobName, e.jobId), name, id);
        HistoryOfOthers(AfterDispatches(q, tries), e.jobName, e.jobId, node.value, name, id);
      }
    }
    assert WaitingSends(send, name, id) + [] == WaitingSends(send, name, id);
    assert NodesOf(p.history, name, id) + [] == NodesOf(p.history, name, id);
  }

  /** A chain after a turn of the error handler: longer, failed, or as it was. */
  lemma ErrorKeepsChain(c: Chain, keys: set<string>, hist: seq<Node>, p: Pool, r: Pool, send: seq<Message>,
                        errors: seq<ServerError>, next: seq<Message>, since: seq<Message>, tries: nat,
                        node: Option<Node>, readable: bool, turn: nat, name: string, id: Int64)
    returns (d: Chain)
    requires errors != [] && OnChain(c, keys, hist, p, send, errors, since, name, id)
    requires errors[0].SendJobError? ==>
               && r.nodes == p.nodes - {errors[0].errorNode}
               && Forwarded(AfterUnregister(p, errors[0].errorNode), r, tries, node, errors[0].jobName, errors[0].jobId,
                            readable, send, next)
               && (node.Some? ==> KeyOf(node.value) in r.nodes)
    requires errors[0].OtherError? ==> next == send && r == p
    ensures OnChain(d, keys, hist, r, next, errors[1..], since, name, id)
    ensures d.tried != [] && d.tried[0] == c.tried[0]
    ensures d == c || d.failure.None?
            || (IsErrorAbout(errors[0], name, id) && errors[0].errorNode == LastTried(d)
                && d.failure == Some(Failure(turn, AfterUnregister(p, LastTried(d)), readable)))
  {
    hide KeyOf, NodesOf, WaitingSends, WaitingErrors, Arrivals, Forwarded, AfterUnregister, HasFailed, IsErrorAbout;
    hide Distinct;
    ErrorWaits(p, r, send, errors, next, tries, node, readable, name, id);
    var e, a, b := errors[0], WaitingErrors(errors[1..], name, id), WaitingSends(send, name, id);
    if !IsErrorAbout(e, name, id) {
      d := c;
      assert [] + a == a && b + [] == b && hist + c.sent + [] == hist + c.sent;
    } else {
      IsJobError(e, name, id);
      assert ([e.errorNode] + a) + b == [LastTried(c)];
      OnlyOne(e.errorNode, a, b, LastTried(c));
      if node.Some? && readable {
        d := Chain(c.tried + [KeyOf(node.value)], c.sent + [node.value], None);
        DistinctSnoc(c.tried, KeyOf(node.value), r.nodes.Keys);
        assert hist + c.sent + [node.value] == hist + d.sent;
        assert [] + ([] + [KeyOf(node.value)]) == [LastTried(d)];
      } else {
        d := c.(failure := Some(Failure(turn, AfterUnregister(p, e.errorNode), readable)));
        FailedDispatch(p, r, e, tries, node, readable, turn, send, next);
        assert hist + c.sent + [] == hist + c.sent;
      }
    }
  }

  lemma OnlyOne(x: string, a: seq<string>, b: seq<string>, y: string)
    requires ([x] + a) + b == [y]
    ensures x == y && a == [] && b == []
  {
    assert (([x] + a) + b)[0] == x;
    assert |([x] + a) + b| == 1 + |a| + |b|;
  }

  lemma IsJobError(e: ServerError, name: string, id: Int64)
    requires IsErrorAbout(e, name, id)
    ensures e.SendJobError?
  {
  }

  lemma FailedDispatch(p: Pool, r: Pool, e: ServerError, tries: nat, node: Option<Node>, readable: bool, turn: nat,
                       send: seq<Message>, next: seq<Message>)
    requires e.SendJobError? && r.nodes == p.nodes - {e.errorNode}
    requires Forwarded(AfterUnregister(p, e.errorNode), r, tries, node, e.jobName, e.jobId, readable, send, next)
    requires node.None? || !readable
    ensures HasFailed(Failure(turn, AfterUnregister(p, e.errorNode), readable), e.errorNode)
  {
    hide AfterUnregister, PickedAfter, AfterDispatches;
    DispatchesKeep(AfterUnregister(p, e.errorNode), tries);
  }

  lemma DistinctSnoc(tried: seq<string>, key: string, keys: set<string>)
    requires Distinct(tried) && key in keys && forall i :: 0 <= i < |tried| ==> tried[i] !in keys
    ensures Distinct(tried + [key])
  {
  }

  /** Whatever turns the loops take, whatever the network does, and whatever other jobs there are: a job that waits
      once in the channels at the start of a run has a chain, and stands somewhere on it ever after. */
  lemma {:induction false} RunKeepsChain(run: seq<MasterState>, net: nat -> Delivery, errorTurn: nat -> bool,
                                         jobExists: nat -> bool, name: string, id: Int64)
    returns (c: Chain)
    requires IsRun(run, Code(Execute), net, errorTurn, jobExists)
    requires |Waiting(run[0].send, run[0].errors, name, id)| == 1
    ensures run[0].delivered <= Last(run).delivered
    ensures OnChain(c, run[0].pool.nodes.Keys, NodesOf(run[0].pool.history, name, id), Last(run).pool, Last(run).send,
                    Last(run).errors, Last(run).delivered[|run[0].delivered|..], name, id)
    ensures c.tried != [] && Waiting(run[0].send, run[0].errors, name, id) == [c.tried[0]]
    ensures c.failure.Some? ==> HappenedIn(c.failure.value, LastTried(c), run, jobExists, name, id)
    decreases |run|
  {
    hide OnChain, KeyOf, Waiting, NodesOf, SendStep, ErrorStep, IsErrorAbout, AfterUnregister, FormatJobToString;
    var a := run[0];
    var keys, hist, n := a.pool.nodes.Keys, NodesOf(a.pool.history, name, id), |run| - 1;
    if n == 0 {
      c := Chain(Waiting(a.send, a.errors, name, id), [], None);
      assert a.delivered[|a.delivered|..] == [];
      ChainBegins(keys, hist, a.pool, a.send, a.errors, name, id);
    } else {
      var past, s, r := run[..n], run[n - 1], run[n];
      assert IsRun(past, Code(Execute), net, errorTurn, jobExists) by {
        assert forall t :: 0 <= t < n ==> past[t] == run[t];
      }
      var b := RunKeepsChain(past, net, errorTurn, jobExists, name, id);
      assert TurnOf(s, r, Code(Execute), net(n - 1), errorTurn(n - 1), jobExists(n - 1));
      if s.errors != [] && (s.send == [] || errorTurn(n - 1)) {
        c := ErrorStepKeepsChain(b, keys, hist, s, r, s.delivered[|a.delivered|..], jobExists(n - 1), n - 1, name, id);
      } else {
        c := b;
        SendStepKeepsChain(b, keys, hist, s, r, |a.delivered|, net(n - 1), name, id);
      }
    }
  }

  lemma SendStepKeepsChain(c: Chain, keys: set<string>, hist: seq<Node>, s: MasterState, r: MasterState, from: nat,
                           d: Delivery, name: string, id: Int64)
    requires SendStep(s, r, Code(Execute), d) && from <= |s.delivered|
    requires OnChain(c, keys, hist, s.pool, s.send, s.errors, s.delivered[from..], name, id)
    ensures s.delivered <= r.delivered
    ensures OnChain(c, keys, hist, r.pool, r.send, r.errors, r.delivered[from..], name, id)
  {
    hide OnChain, Reported;
    SendKeepsChain(c, keys, hist, s.pool, s.send, s.errors, s.delivered[from..], d, name, id);
    assert r.delivered[from..] == s.delivered[from..] + if d.Delivered? then [s.send[0]] else [];
  }

  lemma ErrorStepKeepsChain(c: Chain, keys: set<string>, hist: seq<Node>, s: MasterState, r: MasterState,
                            since: seq<Message>, jobExists: bool, turn: nat, name: string, id: Int64)
    returns (d: Chain)
    requires ErrorStep(s, r, jobExists) && OnChain(c, keys, hist, s.pool, s.send, s.errors, since, name, id)
    ensures OnChain(d, keys, hist, r.pool, r.send, r.errors, since, name, id) && s.delivered == r.delivered
    ensures c.tried != [] && d.tried != [] && d.tried[0] == c.tried[0]
    ensures d == c || d.failure.None?
            || (s.errors != [] && IsErrorAbout(s.errors[0], name, id) && s.errors[0].errorNode == LastTried(d)
                && d.failure == Some(Failure(turn, AfterUnregister(s.pool, LastTried(d)), jobExists)))
  {
    hide KeyOf, Forwarded, AfterUnregister, IsErrorAbout;
    assert c.tried != [];
    hide OnChain;
    if s.errors[0].SendJobError? {
      var e := s.errors[0];
      var tries, node: Option<Node> :|
        && Forwarded(AfterUnregister(s.pool, e.errorNode), r.pool, tries, node, e.jobName, e.jobId, jobExists, s.send,
                     r.send)
        && (node.Some? ==> KeyOf(node.value) in r.pool.nodes);
      d := ErrorKeepsChain(c, keys, hist, s.pool, r.pool, s.send, s.errors, r.send, since, tries, node, jobExists, turn,
                           name, id);
    } else {
      d := ErrorKeepsChain(c, keys, hist, s.pool, r.pool, s.send, s.errors, r.send, since, 0, None, jobExists, turn,
                           name, id);
    }
  }

  /** When the channels have become empty, the chain has ended. */
  lemma ChainOfRun(run: seq<MasterState>, net: nat -> Delivery, errorTurn: nat -> bool, jobExists: nat -> bool,
                   name: string, id: Int64)
    returns (c: Chain)
    requires IsRun(run, Code(Execute), net, errorTurn, jobExists) && Last(run).send == [] && Last(run).errors == []
    requires |Waiting(run[0].send, run[0].errors, name, id)| == 1
    ensures c.tried != [] && Waiting(run[0].send, run[0].errors, name, id) == [c.tried[0]]
    ensures IsChain(c, run[0].pool.nodes.Keys) && run[0].delivered <= Last(run).delivered
    ensures NodesOf(Last(run).pool.history, name, id) == NodesOf(run[0].pool.history, name, id) + c.sent
    ensures HasEnded(c, run, jobExists, Arrivals(Last(run).delivered[|run[0].delivered|..], name, id), name, id)
  {
    assert run != [];
    hide KeyOf, NodesOf, Arrivals, HasFailed, HappenedIn, FormatJobToString, IsRun;
    c := RunKeepsChain(run, net, errorTurn, jobExists, name, id);
    var rest := c.tried[1..];
    assert forall i :: 0 <= i < |rest| ==> rest[i] == c.tried[i + 1];
    DistinctFit(rest, run[0].pool.nodes.Keys);
  }

  lemma {:induction false} DistinctFit(q: seq<string>, keys: set<string>)
    requires Distinct(q) && forall i :: 0 <= i < |q| ==> q[i] in keys
    ensures |q| <= |keys|
  {
    if q != [] {
      var n := |q| - 1;
      forall i | 0 <= i < n ensures q[..n][i] in keys - {q[n]} {
      }
      DistinctFit(q[..n], keys - {q[n]});
    }
  }

  lemma ChainIsShort(c: Chain, keys: set<string>)
    requires IsChain(c, keys) && c.tried[0] in keys
    ensures |c.tried| <= |keys|
  {
    hide KeyOf;
    DistinctFit(c.tried, keys);
  }

  /** A job just sent waits for the node it was sent to. */
  lemma JustSentWaits(p: Pool, r: Pool, send: seq<Message>, errors: seq<ServerError>, tries: nat, node: Node,
                      name: string, id: Int64)
    requires Waiting(send, errors, name, id) == []
    requires r == AfterSend(AfterDispatches(p, tries), name, id, node)
    ensures Waiting(send + [Message(node, Execute, name, id)], errors, name, id) == [KeyOf(node)]
    ensures NodesOf(r.history, name, id) == NodesOf(p.history, name, id) + [node] && r.nodes == p.nodes
  {
    hide KeyOf, FormatJobToString, NodesOf, AfterDispatches;
    SendsAppend(send, Message(node, Execute, name, id), name, id);
    DispatchesKeep(p, tries);
    HistoryOfOthers(AfterDispatches(p, tries), name, id, node, name, id);
    assert WaitingSends(send, name, id) == [] && WaitingErrors(errors, name, id) == [];
  }
}
