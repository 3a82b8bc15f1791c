/** Hop-by-hop forwarding of addressed messages (core/Node.go: sendTo, onRecv). */
module Forwarding {
  import opened Common
  import opened Graph
  import opened Messages
  import opened Routers
  import opened RoutingTables

  /** What a node does with a message. */
  datatype Action =
    | Greet
    | Ignore
    | Spawn
    | Deliver
    | Expire
    | Retry(message: Message)
    | Send(channel: string, hop: Id, message: Message)

  // ---------------------------------------------------------------------------
  // One node
  // ---------------------------------------------------------------------------

  /** To the first hop of the table, if there is one, over the channel asked for or else that of the route, if it is there. */
  function SendVia(table: RoutingTable, channels: set<string>, m: Message, channelID: Option<string>): Action {
    if m.dst !in table || table[m.dst] == [] then
      Retry(m.(lost := true))
    else
      var entry := table[m.dst][0];
      var m' := m.(route := entry.nextHopNodeID);
      var channel := if channelID.Some? then channelID.value else entry.localChannelID;
      if channel !in channels then Retry(m'.(lost := true))
      else Send(channel, entry.nextHopNodeID, m')
  }

  function SendOn(table: RoutingTable, channels: set<string>, m: Message): Action {
    SendVia(table, channels, m, None)
  }

  function Relay(id: Id, table: RoutingTable, channels: set<string>, m: Message): Action {
    var m' := m.(ttl := Decrement(m.ttl));
    if m'.ttl <= 0 then Expire
    else
      match SendOn(table, channels, m')
      case Send(channel, hop, out) => Send(channel, hop, out.(lastSender := id))
      case other => other
  }

  function Dispatch(id: Id, table: RoutingTable, channels: set<string>, m: Message): Action {
    if IsFlood(m.kind) then Spawn
    else if m.dst == id then Deliver
    else if m.route == id then Relay(id, table, channels, m)
    else Ignore
  }

  /** The keys remembered afterwards, and what is done. */
  function Receive(id: Id, table: RoutingTable, channels: set<string>, received: set<string>, m: Message): (set<string>, Action) {
    if m.kind == HELLO || m.kind == HEART_BEAT then (received, Greet)
    else if MsgKey(m) in received then (received, Ignore)
    else (received + {MsgKey(m)}, Dispatch(id, table, channels, m))
  }

  /** Where a message goes that is neither a greeting, nor known, nor a flood, nor for this node. */
  ghost predicate PassedOn(id: Id, table: RoutingTable, channels: set<string>, m: Message, action: Action) {
    var m' := m.(ttl := if m.ttl == -0x8000 then 0x7FFF else m.ttl - 1);
    if m.route != id then action == Ignore
    else if -0x8000 < m.ttl <= 1 then action == Expire
    else if m.dst !in table || |table[m.dst]| == 0 then action == Retry(m'.(lost := true))
    else
      var first := table[m.dst][0];
      if first.localChannelID !in channels then action == Retry(m'.(route := first.nextHopNodeID, lost := true))
      else action == Send(first.localChannelID, first.nextHopNodeID, m'.(route := first.nextHopNodeID, lastSender := id))
  }

  /** What becomes of every message, and that all but greetings are remembered. */
  lemma ReceiveDecides(id: Id, table: RoutingTable, channels: set<string>, received: set<string>, m: Message)
    ensures
      var (keys, action) := Receive(id, table, channels, received, m);
      if m.kind == HELLO || m.kind == HEART_BEAT then keys == received && action == Greet
      else if MsgKey(m) in received then keys == received && action == Ignore
      else
        && keys == received + {MsgKey(m)}
        && if m.kind in {TOPIC_INIT, TOPIC_EXIT, TOPIC_SUBSCRIBE_FLOOD, RPC_SERVICE_FLOOD, RAFT_TOPIC_SUBSCRIBE_FLOOD}
           then action == Spawn
           else if m.dst == id then action == Deliver
           else PassedOn(id, table, channels, m, action)
  {
  }

  // ---------------------------------------------------------------------------
  // A message on its way through all nodes, over channels that lose nothing
  // ---------------------------------------------------------------------------

  datatype Net = Net(tables: map<Id, RoutingTable>, channels: map<Id, set<string>>)

  datatype End = Arrived(message: Message) | Stopped(action: Action)

  datatype Journey = Journey(trail: seq<Id>, end: End)

  predicate Present(net: Net, received: map<Id, set<string>>, at: Id) {
    at in net.tables && at in net.channels && at in received
  }

  function TtlRank(ttl: Int16): nat {
    if ttl == -0x8000 then 0x8000 else if ttl < 0 then 0 else ttl
  }

  /** The message reaches `at`, and goes on from there. */
  function Travel(net: Net, received: map<Id, set<string>>, at: Id, m: Message): Journey
    requires Present(net, received, at)
    decreases TtlRank(m.ttl)
  {
    var (keys, action) := Receive(at, net.tables[at], net.channels[at], received[at], m);
    match action
    case Deliver => Journey([at], Arrived(m))
    case Send(_, hop, out) =>
      var received' := received[at := keys];
      if Present(net, received', hop) then
        var rest := Travel(net, received', hop, out);
        Journey([at] + rest.trail, rest.end)
      else Journey([at], Stopped(action))
    case _ => Journey([at], Stopped(action))
  }

  /** `m` is handed to `sendTo` at `at`. */
  function SendFrom(net: Net, received: map<Id, set<string>>, at: Id, m: Message): Journey
    requires Present(net, received, at)
  {
    var action := SendOn(net.tables[at], net.channels[at], m);
    if action.Send? && Present(net, received, action.hop) then
      var rest := Travel(net, received, action.hop, action.message);
      Journey([at] + rest.trail, rest.end)
    else Journey([at], Stopped(action))
  }

  /** Whatever the tables say, a message visits no more nodes than it has time to live. */
  lemma {:induction false} TtlBoundsTrail(net: Net, received: map<Id, set<string>>, at: Id, m: Message)
    requires Present(net, received, at) && m.ttl >= 1
    ensures |Travel(net, received, at, m).trail| <= m.ttl
    decreases m.ttl
  {
    var (keys, action) := Receive(at, net.tables[at], net.channels[at], received[at], m);
    if action.Send? && Present(net, received[at := keys], action.hop) {
      TtlBoundsTrail(net, received[at := keys], action.hop, action.message);
    }
  }

  // ---------------------------------------------------------------------------
  // Distances
  // ---------------------------------------------------------------------------

  ghost predicate PositiveCosts(g: LinkSet) {
    forall u, v :: HasLink(g, u, v) ==> Cost(g, u, v) > 0
  }

  /** All nodes have built their table from the same link set, and have the channels of their links. */
  ghost predicate Converged(net: Net, g: LinkSet) {
    && WellFormed(g) && PositiveCosts(g)
    && (forall s :: s in Nodes(g) ==> s in net.tables && s in net.channels && RoutesShortest(g, s, net.tables[s]))
    && (forall u, v :: HasLink(g, u, v) && u in net.channels ==> g[u][v].channel in net.channels[u])
  }

  /** The cost of a shortest walk; 0 when there is none. */
  ghost function Distance(g: LinkSet, s: Id, t: Id): int {
    if exists w :: Shortest(g, w, s, t) then
      var w :| Shortest(g, w, s, t);
      WalkCost(g, w)
    else 0
  }

  lemma DistanceIsCost(g: LinkSet, w: seq<Id>, s: Id, t: Id)
    requires Shortest(g, w, s, t)
    ensures Distance(g, s, t) == WalkCost(g, w)
  {
  }

  lemma StayingIsShortest(g: LinkSet, s: Id)
    requires WellFormed(g)
    ensures Shortest(g, [s], s, s) && Distance(g, s, s) == 0
  {
    assert IsWalk(g, [s], s, s) && WalkCost(g, [s]) == 0;
    forall w | IsWalk(g, w, s, s) ensures WalkCost(g, [s]) <= WalkCost(g, w) {
      WalkCostNonNegative(g, w);
    }
    DistanceIsCost(g, [s], s, s);
  }

  function NextHop(net: Net, at: Id, dst: Id): Id
    requires at in net.tables && dst in net.tables[at] && net.tables[at][dst] != []
  {
    net.tables[at][dst][0].nextHopNodeID
  }

  /** Each hop strictly lowers the distance that remains, by the cost of the link taken. */
  lemma HopLowersDistance(net: Net, g: LinkSet, at: Id, dst: Id)
    requires Converged(net, g) && at in Nodes(g) && dst in Nodes(g) && at != dst
    ensures dst in net.tables[at] && net.tables[at][dst] != []
    ensures
      var next := NextHop(net, at, dst);
      && next in Nodes(g) && HasLink(g, at, next)
      && Distance(g, at, dst) == Cost(g, at, next) + Distance(g, next, dst)
      && 0 <= Distance(g, next, dst) < Distance(g, at, dst)
  {
    assert RouteOk(g, at, dst, net.tables[at][dst]);
    var next := NextHop(net, at, dst);
    var w :| Shortest(g, w, at, dst) && |w| >= 2 && w[1] == next;
    LinkEndsAreNodes(g, at, next);
    TailIsShortest(g, w, at, dst);
    DistanceIsCost(g, w, at, dst);
    DistanceIsCost(g, w[1..], next, dst);
    WalkCostNonNegative(g, w[1..]);
  }

  /** The nodes that following the tables leads through. */
  ghost function HopPath(net: Net, g: LinkSet, at: Id, dst: Id): (path: seq<Id>)
    requires Converged(net, g) && at in Nodes(g) && dst in Nodes(g)
    ensures path != []
    decreases Distance(g, at, dst)
  {
    if at == dst then [at]
    else
      HopLowersDistance(net, g, at, dst);
      [at] + HopPath(net, g, NextHop(net, at, dst), dst)
  }

  /** Following the tables, every node on its own, makes a shortest walk. */
  lemma {:induction false} HopPathIsShortest(net: Net, g: LinkSet, at: Id, dst: Id)
    requires Converged(net, g) && at in Nodes(g) && dst in Nodes(g)
    ensures Shortest(g, HopPath(net, g, at, dst), at, dst)
    decreases Distance(g, at, dst)
  {
    if at == dst {
      StayingIsShortest(g, at);
    } else {
      HopLowersDistance(net, g, at, dst);
      var next := NextHop(net, at, dst);
      var rest := HopPath(net, g, next, dst);
      HopPathIsShortest(net, g, next, dst);
      DistanceIsCost(g, rest, next, dst);
      WalkCons(g, at, rest);
      assert RouteOk(g, at, dst, net.tables[at][dst]);
      var w :| Shortest(g, w, at, dst);
      DistanceIsCost(g, w, at, dst);
      assert WalkCost(g, [at] + rest) == WalkCost(g, w);
    }
  }

  // ---------------------------------------------------------------------------
  // A shortest walk visits no node twice
  // ---------------------------------------------------------------------------

  /** Where a shortest walk goes later is nearer to its end. */
  lemma {:induction false} LaterIsNearer(g: LinkSet, w: seq<Id>, s: Id, t: Id, k: nat)
    requires WellFormed(g) && PositiveCosts(g) && Shortest(g, w, s, t) && 0 < k < |w|
    ensures Distance(g, w[k], t) < Distance(g, s, t)
    decreases |w|
  {
    TailIsShortest(g, w, s, t);
    DistanceIsCost(g, w, s, t);
    DistanceIsCost(g, w[1..], w[1], t);
    assert HasLink(g, w[0], w[0 + 1]);
    if k > 1 {
      LaterIsNearer(g, w[1..], w[1], t, k - 1);
    }
  }

  lemma {:induction false} ShortestVisitsOnce(g: LinkSet, w: seq<Id>, s: Id, t: Id)
    requires WellFormed(g) && PositiveCosts(g) && Shortest(g, w, s, t)
    ensures Distinct(w)
    decreases |w|
  {
    if |w| > 1 {
      TailIsShortest(g, w, s, t);
      ShortestVisitsOnce(g, w[1..], w[1], t);
      forall i, j | 0 <= i < j < |w| ensures w[i] != w[j] {
        if i == 0 {
          LaterIsNearer(g, w, s, t, j);
        } else {
          assert w[i] == w[1..][i - 1] && w[j] == w[1..][j - 1];
        }
      }
    }
  }

  lemma WalkStaysInside(g: LinkSet, w: seq<Id>, s: Id, t: Id, v: Id)
    requires IsWalk(g, w, s, t) && s in Nodes(g) && v in w
    ensures v in Nodes(g)
  {
    var i :| 0 <= i < |w| && w[i] == v;
    if i > 0 {
      assert HasLink(g, w[i - 1], w[i - 1 + 1]);
      LinkEndsAreNodes(g, w[i - 1], v);
    }
  }

  /** So forwarding revisits no node, and takes fewer hops than there are nodes. */
  lemma HopPathVisitsOnce(net: Net, g: LinkSet, at: Id, dst: Id)
    requires Converged(net, g) && at in Nodes(g) && dst in Nodes(g)
    ensures Distinct(HopPath(net, g, at, dst)) && |HopPath(net, g, at, dst)| <= |Nodes(g)|
  {
    var w := HopPath(net, g, at, dst);
    HopPathIsShortest(net, g, at, dst);
    ShortestVisitsOnce(g, w, at, dst);
    forall v | v in w ensures v in Nodes(g) {
      WalkStaysInside(g, w, at, dst, v);
    }
    DistinctFitIn(w, Nodes(g));
  }

  // ---------------------------------------------------------------------------
  // Delivery
  // ---------------------------------------------------------------------------

  predicate Addressed(m: Message) {
    m.kind != HELLO && m.kind != HEART_BEAT && !IsFlood(m.kind)
  }

  /** No node of `w` has seen the message. */
  ghost predicate Unseen(received: map<Id, set<string>>, w: seq<Id>, m: Message) {
    forall v :: v in w ==> v in received && MsgKey(m) !in received[v]
  }

  /** How the journey of `m` ends after `path` with `ttl` hops allowed to be relayed. */
  ghost predicate EndsAsPlanned(j: Journey, path: seq<Id>, m: Message)
    requires path != [] && m.ttl >= 1
  {
    if |path| <= m.ttl then
      && j.trail == path && j.end.Arrived?
      && j.end.message == m.(route := path[|path| - 1], ttl := j.end.message.ttl, lastSender := j.end.message.lastSender)
      && j.end.message.ttl == m.ttl - (|path| - 1)
    else j.trail == path[..m.ttl] && j.end == Stopped(Expire)
  }

  lemma RestIsUnseen(received: map<Id, set<string>>, at: Id, rest: seq<Id>, m: Message, m': Message)
    requires Unseen(received, [at] + rest, m) && Distinct([at] + rest) && MsgKey(m') == MsgKey(m)
    ensures Unseen(received[at := received[at] + {MsgKey(m)}], rest, m') && Distinct(rest)
  {
    var path := [at] + rest;
    forall i, j | 0 <= i < j < |rest| ensures rest[i] != rest[j] {
      assert rest[i] == path[i + 1] && rest[j] == path[j + 1];
    }
    forall v | v in rest ensures v in received && MsgKey(m) !in received[v] && v != at {
      assert v in path;
      var i :| 0 <= i < |rest| && rest[i] == v;
      assert path[0] != path[i + 1];
    }
  }

  function Ahead(at: Id, rest: Journey): Journey {
    Journey([at] + rest.trail, rest.end)
  }

  lemma RelayStep(net: Net, received: map<Id, set<string>>, at: Id, m: Message)
    requires Present(net, received, at) && at != m.dst
    requires Addressed(m) && m.route == at && m.ttl >= 2 && MsgKey(m) !in received[at]
    requires m.dst in net.tables[at] && net.tables[at][m.dst] != []
    requires net.tables[at][m.dst][0].localChannelID in net.channels[at]
    requires Present(net, received, NextHop(net, at, m.dst))
    ensures
      var next := NextHop(net, at, m.dst);
      var received' := received[at := received[at] + {MsgKey(m)}];
      && Present(net, received', next)
      && Travel(net, received, at, m)
         == Ahead(at, Travel(net, received', next, m.(ttl := m.ttl - 1, route := next, lastSender := at)))
  {
    var next := NextHop(net, at, m.dst);
    var out := m.(ttl := m.ttl - 1, route := next, lastSender := at);
    assert Receive(at, net.tables[at], net.channels[at], received[at], m)
        == (received[at] + {MsgKey(m)}, Send(net.tables[at][m.dst][0].localChannelID, next, out));
  }

  /** The next hop of a node of a converged network is there, and so is the channel to it. */
  lemma HopIsOpen(net: Net, received: map<Id, set<string>>, g: LinkSet, at: Id, dst: Id)
    requires Converged(net, g) && at in Nodes(g) && dst in Nodes(g) && at != dst && Nodes(g) <= received.Keys
    ensures Present(net, received, at) && dst in net.tables[at] && net.tables[at][dst] != []
    ensures Present(net, received, NextHop(net, at, dst))
    ensures net.tables[at][dst][0].localChannelID in net.channels[at]
  {
    HopLowersDistance(net, g, at, dst);
    assert RouteOk(g, at, dst, net.tables[at][dst]);
  }

  lemma PlannedAhead(at: Id, rest: Journey, restPath: seq<Id>, m: Message, next: Id)
    requires restPath != [] && m.ttl >= 2
    requires EndsAsPlanned(rest, restPath, m.(ttl := m.ttl - 1, route := next, lastSender := at))
    ensures EndsAsPlanned(Ahead(at, rest), [at] + restPath, m)
  {
  }

  lemma StopsHere(net: Net, received: map<Id, set<string>>, g: LinkSet, at: Id, m: Message)
    requires Converged(net, g) && at in Nodes(g) && m.dst in Nodes(g)
    requires Addressed(m) && m.route == at && m.ttl >= 1
    requires Nodes(g) <= received.Keys && MsgKey(m) !in received[at]
    requires at == m.dst || m.ttl == 1
    ensures EndsAsPlanned(Travel(net, received, at, m), HopPath(net, g, at, m.dst), m)
  {
  }

  lemma {:induction false} TravelFollowsHops(net: Net, received: map<Id, set<string>>, g: LinkSet, at: Id, m: Message)
    requires Converged(net, g) && at in Nodes(g) && m.dst in Nodes(g)
    requires Addressed(m) && m.route == at && m.ttl >= 1
    requires Nodes(g) <= received.Keys && Unseen(received, HopPath(net, g, at, m.dst), m)
    requires Distinct(HopPath(net, g, at, m.dst))
    ensures EndsAsPlanned(Travel(net, received, at, m), HopPath(net, g, at, m.dst), m)
    decreases m.ttl
  {
    var path := HopPath(net, g, at, m.dst);
    assert path[0] == at && at in path;
    if at == m.dst || m.ttl == 1 {
      StopsHere(net, received, g, at, m);
    } else {
      HopLowersDistance(net, g, at, m.dst);
      HopIsOpen(net, received, g, at, m.dst);
      RelayStep(net, received, at, m);
      var next := NextHop(net, at, m.dst);
      var rest := HopPath(net, g, next, m.dst);
      var received' := received[at := received[at] + {MsgKey(m)}];
      var m' := m.(ttl := m.ttl - 1, route := next, lastSender := at);
      RestIsUnseen(received, at, rest, m, m');
      TravelFollowsHops(net, received', g, next, m');
      PlannedAhead(at, Travel(net, received', next, m'), rest, m, next);
    }
  }

  lemma HopPathUnseen(net: Net, received: map<Id, set<string>>, g: LinkSet, at: Id, m: Message)
    requires Converged(net, g) && at in Nodes(g) && m.dst in Nodes(g)
    requires Nodes(g) <= received.Keys && forall v :: v in Nodes(g) ==> MsgKey(m) !in received[v]
    ensures Unseen(received, HopPath(net, g, at, m.dst), m)
  {
    var path := HopPath(net, g, at, m.dst);
    HopPathIsShortest(net, g, at, m.dst);
    forall v | v in path ensures v in Nodes(g) {
      WalkStaysInside(g, path, at, m.dst, v);
    }
  }

  /**
   * An addressed message between two nodes of a converged network arrives exactly when its route, which is a
   * shortest walk without repetition, has at most `ttl` + 1 nodes; it then carries what was sent.
   */
  lemma ForwardingArrivesIff(net: Net, received: map<Id, set<string>>, g: LinkSet, src: Id, m: Message)
    requires Converged(net, g) && src in Nodes(g) && m.dst in Nodes(g) && src != m.dst
    requires Addressed(m) && m.ttl >= 1
    requires Nodes(g) <= received.Keys && forall v :: v in Nodes(g) ==> MsgKey(m) !in received[v]
    ensures
      var j, path := SendFrom(net, received, src, m), HopPath(net, g, src, m.dst);
      && (j.end.Arrived? <==> |path| <= m.ttl + 1)
      && (j.end.Arrived? ==> j.trail == path && j.end.message.data == m.data && j.end.message.from == m.from)
      && Shortest(g, path, src, m.dst) && Distinct(path) && |path| <= |Nodes(g)|
  {
    var path := HopPath(net, g, src, m.dst);
    HopPathIsShortest(net, g, src, m.dst);
    HopPathVisitsOnce(net, g, src, m.dst);
    var next := SentAhead(net, received, g, src, m);
    HopPathUnseen(net, received, g, next, m);
    HopPathVisitsOnce(net, g, next, m.dst);
    TravelFollowsHops(net, received, g, next, m.(route := next));
  }

  lemma SentAhead(net: Net, received: map<Id, set<string>>, g: LinkSet, src: Id, m: Message) returns (next: Id)
    requires Converged(net, g) && src in Nodes(g) && m.dst in Nodes(g) && src != m.dst && Nodes(g) <= received.Keys
    ensures Present(net, received, src) && next in Nodes(g) && Present(net, received, next)
    ensures SendFrom(net, received, src, m) == Ahead(src, Travel(net, received, next, m.(route := next)))
    ensures HopPath(net, g, src, m.dst) == [src] + HopPath(net, g, next, m.dst)
  {
    HopLowersDistance(net, g, src, m.dst);
    HopIsOpen(net, received, g, src, m.dst);
    next := NextHop(net, src, m.dst);
  }

  /** With the default time to live, no message of a network of at most 101 nodes is ever dropped on the way. */
  lemma DefaultTtlSuffices(net: Net, received: map<Id, set<string>>, g: LinkSet, src: Id, m: Message)
    requires Converged(net, g) && src in Nodes(g) && m.dst in Nodes(g) && src != m.dst
    requires Addressed(m) && m.ttl == DEFAULT_MESSAGE_TTL && |Nodes(g)| <= 101
    requires Nodes(g) <= received.Keys && forall v :: v in Nodes(g) ==> MsgKey(m) !in received[v]
    ensures SendFrom(net, received, src, m).end.Arrived?
    ensures Shortest(g, SendFrom(net, received, src, m).trail, src, m.dst)
    ensures Distinct(SendFrom(net, received, src, m).trail)
  {
    ForwardingArrivesIff(net, received, g, src, m);
  }

  // ---------------------------------------------------------------------------
  // The smallest converged network
  // ---------------------------------------------------------------------------

  function PairLinks(): LinkSet {
    map["a" := map["b" := Link("a", "b", 1, "c")], "b" := map["a" := Link("b", "a", 1, "c")]]
  }

  function PairNet(): Net {
    Net(map["a" := map["b" := [RouteEntry("c", "b")]], "b" := map["a" := [RouteEntry("c", "a")]]],
        map["a" := {"c"}, "b" := {"c"}])
  }

  lemma PairNodes()
    ensures Nodes(PairLinks()) == {"a", "b"}
    ensures forall u, v :: HasLink(PairLinks(), u, v) <==> (u == "a" && v == "b") || (u == "b" && v == "a")
  {
    var g := PairLinks();
    assert HasLink(g, "a", "b") && HasLink(g, "b", "a");
    LinkEndsAreNodes(g, "a", "b");
    forall x | x in Nodes(g) ensures x in {"a", "b"} {
    }
  }

  lemma DirectIsShortest(g: LinkSet, u: Id, v: Id)
    requires WellFormed(g) && HasLink(g, u, v) && u != v
    requires forall x, y :: HasLink(g, x, y) ==> Cost(g, x, y) >= Cost(g, u, v)
    ensures Shortest(g, [u, v], u, v) && FirstHop(g, u, v, v)
  {
    assert [u, v][..1] == [u] && WalkCost(g, [u]) == 0;
    assert IsWalk(g, [u, v], u, v) && WalkCost(g, [u, v]) == Cost(g, u, v);
    forall w | IsWalk(g, w, u, v) ensures WalkCost(g, [u, v]) <= WalkCost(g, w) {
      WalkInit(g, w);
      WalkCostNonNegative(g, w[..|w| - 1]);
      assert HasLink(g, w[|w| - 2], w[|w| - 2 + 1]);
    }
  }

  lemma PairConverges()
    ensures Converged(PairNet(), PairLinks())
  {
    var net, g := PairNet(), PairLinks();
    PairNodes();
    assert WellFormed(g) && PositiveCosts(g);
    DirectIsShortest(g, "a", "b");
    DirectIsShortest(g, "b", "a");
    assert RouteOk(g, "a", "b", net.tables["a"]["b"]) && RouteOk(g, "b", "a", net.tables["b"]["a"]);
    assert RoutesShortest(g, "a", net.tables["a"]) && RoutesShortest(g, "b", net.tables["b"]);
  }
}
