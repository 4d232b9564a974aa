/** `GrpcDispatcher`: the node map, the rotating key list with its cursor, and the job history. Each
    method runs as one atomic step. */
module Dispatch {
  import opened Results
  import opened Text
  import opened JobKeys

  datatype Node = Node(name: string, address: string)

  datatype NodeInfo = NodeInfo(node: Node, lastPingTime: int)

  datatype MessageType = Register | Unregister | Heartbeat | Execute | Cancel | JobResult | Log | Error | File | Status

  /** The number of a message type on the wire. */
  function Code(t: MessageType): nat {
    match t
    case Register => 0
    case Unregister => 1
    case Heartbeat => 2
    case Execute => 3
    case Cancel => 4
    case JobResult => 5
    case Log => 6
    case Error => 7
    case File => 8
    case Status => 9
  }

  /** A message to a worker about one job. */
  datatype Message = Message(node: Node, kind: MessageType, jobName: string, jobId: Int64)

  function KeyOf(node: Node): string {
    GetNodeKey(node.name, node.address)
  }

  /** Silence for longer than this, in seconds, removes a node. */
  const PING_TIMEOUT := 3 * 60

  class GrpcDispatcher {
    var nodes: map<string, NodeInfo>
    var keyList: seq<string>
    var index: nat
    var jobNodeMap: map<string, seq<Node>>

    /** Nodes are stored under their own keys, the list is as long as the map, and the cursor is in
        range. */
    ghost predicate Valid()
      reads this
    {
      && (forall k :: k in nodes ==> KeyOf(nodes[k].node) == k)
      && |keyList| == |nodes|
      && (index < |keyList| || index == |keyList| == 0)
      && (forall k :: k in jobNodeMap ==> jobNodeMap[k] != [])
    }

    /** The keys in the order in which they will be dispatched. */
    ghost function Queue(): (q: seq<string>)
      requires Valid()
      reads this
    {
      keyList[index..] + keyList[..index]
    }

    ghost function State(): Pool
      requires Valid()
      reads this
    {
      Pool(nodes, Queue(), index, jobNodeMap)
    }

    constructor ()
      ensures Valid() && State() == EmptyPool
      ensures Queue() == [] && nodes == map[] && jobNodeMap == map[]
    {
      nodes, keyList, index, jobNodeMap := map[], [], 0, map[];
    }

    /** The head of the queue moves to its back, whether or not a node is found under it. */
    method DispatchNode() returns (r: Option<Node>)
      requires Valid()
      modifies this`index
      ensures Valid()
      ensures State() == AfterDispatch(old(State()))
      ensures Queue() == Rotate(old(Queue()))
      ensures r == if old(Queue()) != [] && old(Queue())[0] in nodes then Some(nodes[old(Queue())[0]].node) else None
      ensures keyList != [] ==> index == (old(index) + 1) % |keyList|
    {
      if |keyList| == 0 {
        return None;
      }
      var key := keyList[index];
      index := (index + 1) % |keyList|;
      RotateCursor(keyList, old(index));
      if key in nodes {
        return Some(nodes[key].node);
      }
      return None;
    }

    /** A new key enters the queue where the list wraps around. */
    method Register(node: Node, now: int) returns (ok: bool)
      requires Valid()
      modifies this`nodes, this`keyList
      ensures Valid()
      ensures State() == AfterRegister(old(State()), node, now)
      ensures ok <==> KeyOf(node) !in old(nodes)
      ensures ok ==> nodes == old(nodes)[KeyOf(node) := NodeInfo(node, now)]
      ensures ok ==> keyList == old(keyList) + [KeyOf(node)]
      ensures ok ==> Queue() == InsertAt(old(Queue()), |old(Queue())| - index, KeyOf(node))
      ensures !ok ==> nodes == old(nodes) && keyList == old(keyList)
    {
      hide KeyOf, NodesOf;
      var key := KeyOf(node);
      if key !in nodes {
        nodes := nodes[key := NodeInfo(node, now)];
        keyList := keyList + [key];
        return true;
      }
      return false;
    }

    /** The node of `key` leaves the map; the back of the queue leaves the list. */
    method UnRegisterWithKey(key: string) returns (ok: bool)
      requires Valid()
      modifies this`nodes, this`keyList, this`index
      ensures Valid()
      ensures State() == AfterUnregister(old(State()), key)
      ensures ok <==> key in old(nodes)
      ensures ok ==> nodes == old(nodes) - {key} && |nodes| == |old(nodes)| - 1
      ensures ok ==> old(Queue()) != [] && Queue() == old(Queue())[..|old(Queue())| - 1]
      ensures ok ==> if old(index) == 0 then keyList == old(keyList)[..|old(keyList)| - 1] && index == 0
                     else && keyList == old(keyList)[..old(index) - 1] + old(keyList)[old(index)..]
                          && index == old(index) - 1
      ensures !ok ==> nodes == old(nodes) && keyList == old(keyList) && index == old(index)
    {
      hide KeyOf, NodesOf;
      if key in nodes {
        SizeWithout(nodes, key);
        DropBehindCursor(keyList, index);
        nodes := nodes - {key};
        if index != 0 {
          keyList := keyList[..index - 1] + keyList[index..];
          index := (index - 1) % |keyList|;
        } else {
          keyList := keyList[..|keyList| - 1];
          index := 0;
        }
        return true;
      }
      return false;
    }

    method UnRegister(node: Node) returns (ok: bool)
      requires Valid()
      modifies this`nodes, this`keyList, this`index
      ensures Valid()
      ensures State() == AfterUnregister(old(State()), KeyOf(node))
      ensures ok <==> KeyOf(node) in old(nodes)
      ensures ok ==> nodes == old(nodes) - {KeyOf(node)} && |nodes| == |old(nodes)| - 1
      ensures ok ==> old(Queue()) != [] && Queue() == old(Queue())[..|old(Queue())| - 1]
      ensures !ok ==> nodes == old(nodes) && keyList == old(keyList) && index == old(index)
    {
      ok := UnRegisterWithKey(KeyOf(node));
    }

    method Ping(node: Node, now: int) returns (ok: bool)
      requires Valid()
      modifies this`nodes
      ensures Valid()
      ensures State() == AfterPing(old(State()), node, now)
      ensures ok <==> KeyOf(node) in old(nodes)
      ensures nodes == if ok then old(nodes)[KeyOf(node) := NodeInfo(node, now)] else old(nodes)
    {
      var key := KeyOf(node);
      if key in nodes {
        nodes := nodes[key := NodeInfo(node, now)];
        return true;
      }
      return false;
    }

    /** Removes exactly the nodes silent for too long, and as many keys from the back of the queue. */
    method HealthcheckNode(now: int)
      requires Valid()
      modifies this`nodes, this`keyList, this`index
      ensures Valid()
      ensures nodes == map k | k in old(nodes) && now - old(nodes)[k].lastPingTime <= 180 :: old(nodes)[k]
      ensures |nodes| <= |old(Queue())| && Queue() == old(Queue())[..|nodes|]
    {
      hide KeyOf, NodesOf;
      ghost var all, q := nodes, Queue();
      var pending := nodes.Keys;
      while pending != {}
        invariant Valid() && pending <= all.Keys
        invariant nodes == map k | k in all && (k in pending || now - all[k].lastPingTime <= PING_TIMEOUT) :: all[k]
        invariant |nodes| <= |q| && Queue() == q[..|nodes|]
        decreases pending
      {
        var key :| key in pending;
        pending := pending - {key};
        var nodeInfo := nodes[key];
        if now - nodeInfo.lastPingTime > PING_TIMEOUT {
          var _ := UnRegister(nodeInfo.node);
        }
      }
    }

    method SendJob(name: string, jobDetailID: Int64, node: Node) returns (msg: Message)
      requires Valid()
      modifies this`jobNodeMap
      ensures Valid()
      ensures msg == Message(node, Execute, name, jobDetailID)
      ensures State() == AfterSend(old(State()), name, jobDetailID, node)
    {
      msg := Message(node, Execute, name, jobDetailID);
      var key := FormatJobToString(name, jobDetailID);
      if key in jobNodeMap {
        jobNodeMap := jobNodeMap[key := jobNodeMap[key] + [node]];
      } else {
        assert [node] == [] + [node];
        jobNodeMap := jobNodeMap[key := [node]];
      }
    }

    method GetJobLatestNode(name: string, id: Int64) returns (r: Option<Node>)
      requires Valid()
      ensures r == LatestOf(NodesOf(jobNodeMap, name, id))
    {
      var key := FormatJobToString(name, id);
      if key in jobNodeMap {
        var nodes := jobNodeMap[key];
        return Some(nodes[|nodes| - 1]);
      }
      return None;
    }

    method CancelJob(name: string, jobDetailID: Int64) returns (r: Option<Message>)
      requires Valid()
      ensures r == AddressLatest(NodesOf(jobNodeMap, name, jobDetailID), Cancel, name, jobDetailID)
    {
      var node := GetJobLatestNode(name, jobDetailID);
      match node
      case None => r := None;
      case Some(n) => r := Some(Message(n, Cancel, name, jobDetailID));
    }

    method GetJobStatus(name: string, id: Int64) returns (r: Option<Message>)
      requires Valid()
      ensures r == AddressLatest(NodesOf(jobNodeMap, name, id), Status, name, id)
    {
      var node := GetJobLatestNode(name, id);
      match node
      case None => r := None;
      case Some(n) => r := Some(Message(n, Status, name, id));
    }

    method IsValidNode(n: string) returns (b: bool)
      ensures b <==> n in nodes
    {
      b := n in nodes;
    }
  }

  // ---- the dispatcher's state and its operations, as functions ----

  /** `wrap` is how far the list's end lies from the queue's back. */
  datatype Pool = Pool(nodes: map<string, NodeInfo>, queue: seq<string>, wrap: nat, history: map<string, seq<Node>>)

  const EmptyPool := Pool(map[], [], 0, map[])

  function AfterDispatch(p: Pool): Pool {
    if p.queue == [] then p else p.(queue := Rotate(p.queue), wrap := (p.wrap + 1) % |p.queue|)
  }

  function AfterRegister(p: Pool, node: Node, now: int): Pool {
    var key := KeyOf(node);
    if key in p.nodes || p.wrap > |p.queue| then p
    else p.(nodes := p.nodes[key := NodeInfo(node, now)], queue := InsertAt(p.queue, |p.queue| - p.wrap, key))
  }

  function AfterUnregister(p: Pool, key: string): Pool {
    if key !in p.nodes || p.queue == [] then p
    else p.(nodes := p.nodes - {key}, queue := p.queue[..|p.queue| - 1], wrap := if p.wrap == 0 then 0 else p.wrap - 1)
  }

  function AfterPing(p: Pool, node: Node, now: int): Pool {
    if KeyOf(node) in p.nodes then p.(nodes := p.nodes[KeyOf(node) := NodeInfo(node, now)]) else p
  }

  function AfterSend(p: Pool, name: string, id: Int64, node: Node): Pool {
    p.(history := p.history[FormatJobToString(name, id) := NodesOf(p.history, name, id) + [node]])
  }

  function NodesOf(history: map<string, seq<Node>>, name: string, id: Int64): seq<Node> {
    var key := FormatJobToString(name, id);
    if key in history then history[key] else []
  }

  function LatestOf(nodes: seq<Node>): Option<Node> {
    if nodes == [] then None else Some(nodes[|nodes| - 1])
  }

  function AddressLatest(nodes: seq<Node>, kind: MessageType, name: string, id: Int64): Option<Message> {
    match LatestOf(nodes)
    case None => None
    case Some(n) => Some(Message(n, kind, name, id))
  }

  // ---- the queue ----

  function Rotate<T>(q: seq<T>): seq<T> {
    if q == [] then q else q[1..] + [q[0]]
  }

  function InsertAt<T>(q: seq<T>, i: nat, x: T): seq<T>
    requires i <= |q|
  {
    q[..i] + [x] + q[i..]
  }

  lemma RotateCursor(list: seq<string>, i: nat)
    requires i < |list|
    ensures var j := (i + 1) % |list|; list[j..] + list[..j] == Rotate(list[i..] + list[..i])
  {
    assert list[i..][0] == list[i];
    if i + 1 == |list| {
      assert (i + 1) % |list| == 0;
    } else {
      assert (i + 1) % |list| == i + 1;
    }
  }

  /** Dropping the slot behind the cursor drops the back of the queue. */
  lemma DropBehindCursor(list: seq<string>, i: nat)
    requires i < |list|
    ensures var q := list[i..] + list[..i];
            && (i != 0 ==>
                  var l := list[..i - 1] + list[i..];
                  (i - 1) % |l| == i - 1 && l[i - 1..] + l[..i - 1] == q[..|q| - 1])
            && (i == 0 ==> list[..|list| - 1] == q[..|q| - 1])
  {
    var q := list[i..] + list[..i];
    if i != 0 {
      var l := list[..i - 1] + list[i..];
      assert l[i - 1..] == list[i..] && l[..i - 1] == list[..i - 1];
      assert q[..|q| - 1] == list[i..] + list[..i - 1];
    }
  }

  lemma SizeWithout<T>(m: map<string, T>, k: string)
    requires k in m
    ensures |m - {k}| == |m| - 1
  {
    assert (m - {k}).Keys == m.Keys - {k};
  }
}
