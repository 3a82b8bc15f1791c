/** Flooding of topic subscriptions through all nodes (core/Node.go: addLocalSub, onRecv, handleTopicInit). */
module Flooding {
  import opened Common
  import opened Forwarding
  import opened Messages
  import opened Routers

  type Subs = map<string, seq<Id>>

  function SubsOf(subs: Subs, topic: string): seq<Id> {
    if topic in subs then subs[topic] else []
  }

  /** `handleTopicInit` adds the sender to the list of the topic unless it is there. */
  function RecordSub(subs: Subs, topic: string, sender: Id): Subs {
    if sender in SubsOf(subs, topic) then subs else subs[topic := SubsOf(subs, topic) + [sender]]
  }

  /** The message with which `id` announces its first subscriber of a topic. */
  function TopicInitMessage(id: Id, topic: string, counter: nat): Message {
    Message(TOPIC_INIT, topic, id, "", "", 1, false, counter, id)
  }

  /** What a node passes on. */
  function Rebroadcast(id: Id, m: Message): Message {
    m.(lastSender := id, ttl := 1)
  }

  // ---------------------------------------------------------------------------
  // All nodes together
  // ---------------------------------------------------------------------------

  datatype NodeState = NodeState(table: RoutingTable, channels: set<string>, counter: nat, received: set<string>, totalSubs: Subs)

  /**
   * A peer over one channel. A channel inside the process names the origin of a message as its sender, and so does not
   * hand a node the messages it is itself the origin of; one over TCP names the last sender.
   */
  datatype Peer = Peer(id: Id, dropsOwn: bool)

  datatype Parcel = Parcel(at: Id, dropsOwn: bool, message: Message)

  /** The peers of every node over all its channels, one that shares two channels twice. */
  datatype Config = Config(peers: map<Id, seq<Peer>>)

  /** `wires` are under way, `jobs` are accepted and wait for their handler; `started` and `handled` are history. */
  datatype State = State(nodes: map<Id, NodeState>, wires: multiset<Parcel>, jobs: multiset<Parcel>,
                         started: seq<Message>, handled: seq<(Id, string)>)

  datatype Step = Start(origin: Id, topic: string) | Tick(node: Id) | Arrive(parcel: Parcel) | Handle(parcel: Parcel)

  predicate Closed(c: Config) {
    forall x, i :: x in c.peers && 0 <= i < |c.peers[x]| ==> c.peers[x][i].id in c.peers
  }

  predicate Init(c: Config, s: State) {
    && s.nodes.Keys == c.peers.Keys
    && (forall v :: v in s.nodes ==> s.nodes[v].received == {} && s.nodes[v].totalSubs == map[])
    && s.wires == multiset{} && s.jobs == multiset{} && s.started == [] && s.handled == []
  }

  function Copies(targets: seq<Peer>, m: Message): multiset<Parcel> {
    if targets == [] then multiset{} else multiset{Parcel(targets[0].id, targets[0].dropsOwn, m)} + Copies(targets[1..], m)
  }

  predicate Enabled(c: Config, s: State, step: Step) {
    match step
    case Start(o, _) => o in s.nodes && o in c.peers
    case Tick(v) => v in s.nodes
    case Arrive(p) => p in s.wires && p.at in s.nodes
    case Handle(p) => p in s.jobs && p.at in s.nodes && p.at in c.peers
  }

  function Apply(c: Config, s: State, step: Step): State
    requires Enabled(c, s, step)
  {
    match step
    case Start(o, topic) =>
      var m := TopicInitMessage(o, topic, s.nodes[o].counter);
      s.(nodes := s.nodes[o := s.nodes[o].(counter := s.nodes[o].counter + 1)],
         wires := s.wires + Copies(c.peers[o], m),
         started := s.started + [m])
    case Tick(v) =>
      s.(nodes := s.nodes[v := s.nodes[v].(counter := s.nodes[v].counter + 1)])
    case Arrive(p) =>
      var n := s.nodes[p.at];
      var wires := s.wires - multiset{p};
      if p.dropsOwn && p.message.from == p.at then s.(wires := wires)
      else
        var (received, action) := Receive(p.at, n.table, n.channels, n.received, p.message);
        s.(nodes := s.nodes[p.at := n.(received := received)],
           wires := wires,
           jobs := if action.Spawn? then s.jobs + multiset{p} else s.jobs)
    case Handle(p) =>
      var n := s.nodes[p.at];
      s.(nodes := s.nodes[p.at := n.(totalSubs := RecordSub(n.totalSubs, p.message.data, p.message.from))],
         wires := s.wires + Copies(c.peers[p.at], Rebroadcast(p.at, p.message)),
         jobs := s.jobs - multiset{p},
         handled := s.handled + [(p.at, MsgKey(p.message))])
  }

  ghost predicate IsRun(c: Config, states: seq<State>, steps: seq<Step>) {
    && |states| == |steps| + 1 && Init(c, states[0])
    && forall i :: 0 <= i < |steps| ==> Enabled(c, states[i], steps[i]) && states[i + 1] == Apply(c, states[i], steps[i])
  }

  predicate Quiescent(s: State) {
    s.wires == multiset{} && s.jobs == multiset{}
  }

  // ---------------------------------------------------------------------------
  // Who is connected
  // ---------------------------------------------------------------------------

  ghost predicate IsPeer(c: Config, x: Id, y: Peer) {
    x in c.peers && y in c.peers[x]
  }

  ghost predicate Linked(c: Config, x: Id, y: Id) {
    IsPeer(c, x, Peer(y, true)) || IsPeer(c, x, Peer(y, false))
  }

  ghost predicate IsRelay(c: Config, w: seq<Id>, o: Id, v: Id) {
    |w| >= 2 && w[0] == o && w[|w| - 1] == v && forall i :: 0 <= i < |w| - 1 ==> Linked(c, w[i], w[i + 1])
  }

  /** A message broadcast at `o` gets to `v` over at least one hop. */
  ghost predicate Connected(c: Config, o: Id, v: Id) {
    exists w :: IsRelay(c, w, o, v)
  }

  /** A message broadcast at `o`, and passed on, is sent to this peer. */
  ghost predicate SentTo(c: Config, o: Id, y: Peer) {
    exists x :: (x == o || Connected(c, o, x)) && IsPeer(c, x, y)
  }

  /** And handed to `v` over some channel. */
  ghost predicate Hears(c: Config, o: Id, v: Id) {
    SentTo(c, o, Peer(v, false)) || (v != o && SentTo(c, o, Peer(v, true)))
  }

  lemma SentIsConnected(c: Config, o: Id, y: Peer)
    requires SentTo(c, o, y)
    ensures Connected(c, o, y.id)
  {
    var x :| (x == o || Connected(c, o, x)) && IsPeer(c, x, y);
    ConnectedStep(c, o, x, y.id);
  }

  /** With no channel that drops a node's own messages only connection counts. */
  lemma HearsIffConnected(c: Config, o: Id, v: Id)
    requires v != o || forall x, y :: IsPeer(c, x, y) ==> !y.dropsOwn
    ensures Hears(c, o, v) <==> Connected(c, o, v)
  {
    if Hears(c, o, v) {
      SentIsConnected(c, o, if SentTo(c, o, Peer(v, false)) then Peer(v, false) else Peer(v, true));
    }
    if Connected(c, o, v) {
      var w :| IsRelay(c, w, o, v);
      var x, init := w[|w| - 2], w[..|w| - 1];
      assert Linked(c, w[|w| - 2], w[|w| - 2 + 1]);
      assert forall i :: 0 <= i < |init| - 1 ==> Linked(c, w[i], w[i + 1]);
      assert x == o || IsRelay(c, init, o, x);
      assert IsPeer(c, x, Peer(v, true)) || IsPeer(c, x, Peer(v, false));
    }
  }

  function PeerOf(p: Parcel): Peer {
    Peer(p.at, p.dropsOwn)
  }

  lemma ConnectedStep(c: Config, o: Id, x: Id, y: Id)
    requires (x == o || Connected(c, o, x)) && Linked(c, x, y)
    ensures Connected(c, o, y)
  {
    if x == o {
      assert IsRelay(c, [o, y], o, y);
    } else {
      var w :| IsRelay(c, w, o, x);
      var w' := w + [y];
      forall i | 0 <= i < |w'| - 1 ensures Linked(c, w'[i], w'[i + 1]) {
        assert i < |w| - 1 ==> Linked(c, w[i], w[i + 1]);
      }
      assert IsRelay(c, w', o, y);
    }
  }

  // ---------------------------------------------------------------------------
  // The invariant
  // ---------------------------------------------------------------------------

  ghost predicate CopyOf(m: Message, f: Message) {
    m == f.(lastSender := m.lastSender)
  }

  ghost predicate FloodOk(s: State, f: Message) {
    && f.kind == TOPIC_INIT && f.ttl == 1 && f.from in s.nodes && f.versionSeq < s.nodes[f.from].counter
  }

  ghost predicate StartedInv(s: State) {
    && (forall f :: f in s.started ==> FloodOk(s, f))
    && forall f, f' :: f in s.started && f' in s.started && MsgKey(f) == MsgKey(f') ==> f == f'
  }

  ghost predicate ParcelOk(c: Config, s: State, p: Parcel) {
    && p.at in s.nodes
    && exists f :: f in s.started && CopyOf(p.message, f) && SentTo(c, f.from, PeerOf(p))
  }

  ghost predicate WiresInv(c: Config, s: State) {
    forall p :: p in s.wires ==> ParcelOk(c, s, p)
  }

  ghost predicate JobOk(c: Config, s: State, p: Parcel) {
    && ParcelOk(c, s, p) && s.jobs[p] == 1
    && !(p.dropsOwn && p.at == p.message.from)
    && MsgKey(p.message) in s.nodes[p.at].received
    && (p.at, MsgKey(p.message)) !in s.handled
  }

  ghost predicate JobsInv(c: Config, s: State) {
    && (forall p :: p in s.jobs ==> JobOk(c, s, p))
    && forall p, q :: p in s.jobs && q in s.jobs && p.at == q.at && MsgKey(p.message) == MsgKey(q.message) ==> p == q
  }

  ghost predicate Waiting(s: State, v: Id, key: string) {
    exists p :: p in s.jobs && p.at == v && MsgKey(p.message) == key
  }

  /** What was accepted has its handler before or behind it. */
  ghost predicate ReceivedInv(s: State) {
    forall v, key :: v in s.nodes && key in s.nodes[v].received ==> (v, key) in s.handled || Waiting(s, v, key)
  }

  ghost predicate HandledOk(c: Config, s: State, v: Id, key: string) {
    && v in s.nodes && key in s.nodes[v].received
    && exists f :: f in s.started && MsgKey(f) == key && Hears(c, f.from, v)
                   && f.from in SubsOf(s.nodes[v].totalSubs, f.data)
  }

  ghost predicate HandledInv(c: Config, s: State) {
    && Distinct(s.handled)
    && forall v, key :: (v, key) in s.handled ==> HandledOk(c, s, v, key)
  }

  ghost predicate Broadcast(s: State, x: Id, f: Message) {
    x == f.from || (x, MsgKey(f)) in s.handled
  }

  ghost predicate OnWire(s: State, y: Peer, key: string) {
    exists p :: p in s.wires && PeerOf(p) == y && MsgKey(p.message) == key
  }

  ghost predicate Covered(s: State, y: Peer, f: Message) {
    || (y.dropsOwn && y.id == f.from)
    || (y.id in s.nodes && MsgKey(f) in s.nodes[y.id].received)
    || OnWire(s, y, MsgKey(f))
  }

  /** Every peer of a node that has broadcast a flood has it, or will. */
  ghost predicate CoverageInv(c: Config, s: State) {
    forall f, x, y :: f in s.started && Broadcast(s, x, f) && IsPeer(c, x, y) ==> Covered(s, y, f)
  }

  ghost predicate SubOk(s: State, v: Id, topic: string, x: Id) {
    exists f :: f in s.started && f.from == x && f.data == topic && (v, MsgKey(f)) in s.handled
  }

  ghost predicate SubsInv(s: State) {
    && (forall v, topic :: v in s.nodes ==> Distinct(SubsOf(s.nodes[v].totalSubs, topic)))
    && forall v, topic, x :: v in s.nodes && x in SubsOf(s.nodes[v].totalSubs, topic) ==> SubOk(s, v, topic, x)
  }

  ghost predicate Inv(c: Config, s: State) {
    && Closed(c) && s.nodes.Keys == c.peers.Keys
    && StartedInv(s) && WiresInv(c, s) && JobsInv(c, s) && ReceivedInv(s) && HandledInv(c, s)
    && CoverageInv(c, s) && SubsInv(s)
  }

  // ---------------------------------------------------------------------------
  // Every step keeps it
  // ---------------------------------------------------------------------------

  lemma {:induction false} CopiesMembers(targets: seq<Peer>, m: Message)
    ensures forall p :: p in Copies(targets, m) <==> p.message == m && PeerOf(p) in targets
    ensures |Copies(targets, m)| == |targets|
  {
    if targets != [] {
      CopiesMembers(targets[1..], m);
      assert targets == [targets[0]] + targets[1..];
    }
  }

  lemma CopySharesKey(m: Message, f: Message)
    requires CopyOf(m, f)
    ensures MsgKey(m) == MsgKey(f)
  {
  }

  /** The parts of a state that only ever grow. */
  ghost predicate Grows(s: State, s': State) {
    && s.nodes.Keys == s'.nodes.Keys
    && (forall f :: f in s.started ==> f in s'.started)
    && (forall v :: v in s.nodes ==> s.nodes[v].received <= s'.nodes[v].received)
    && (forall h :: h in s.handled ==> h in s'.handled)
    && (forall v, topic, x :: v in s.nodes && x in SubsOf(s.nodes[v].totalSubs, topic) ==> x in SubsOf(s'.nodes[v].totalSubs, topic))
  }

  lemma ParcelStaysOk(c: Config, s: State, s': State, p: Parcel)
    requires Grows(s, s') && ParcelOk(c, s, p)
    ensures ParcelOk(c, s', p)
  {
  }

  lemma HandledStaysOk(c: Config, s: State, s': State, v: Id, key: string)
    requires Grows(s, s') && HandledOk(c, s, v, key)
    ensures HandledOk(c, s', v, key)
  {
    var f :| f in s.started && MsgKey(f) == key && Hears(c, f.from, v)
             && f.from in SubsOf(s.nodes[v].totalSubs, f.data);
    assert f in s'.started;
  }

  lemma SubStaysOk(s: State, s': State, v: Id, topic: string, x: Id)
    requires Grows(s, s') && SubOk(s, v, topic, x)
    ensures SubOk(s', v, topic, x)
  {
  }

  // What each part of the invariant needs of a step ------------------------------

  lemma StartedKept(s: State, s': State)
    requires StartedInv(s) && s'.started == s.started && s.nodes.Keys == s'.nodes.Keys
    requires forall v :: v in s.nodes ==> s'.nodes[v].counter >= s.nodes[v].counter
    ensures StartedInv(s')
  {
    forall f | f in s'.started ensures FloodOk(s', f) {
      assert FloodOk(s, f);
    }
  }

  lemma WiresKept(c: Config, s: State, s': State)
    requires WiresInv(c, s) && Grows(s, s')
    requires forall p :: p in s'.wires ==> p in s.wires || ParcelOk(c, s', p)
    ensures WiresInv(c, s')
  {
    forall p | p in s'.wires ensures ParcelOk(c, s', p) {
      if p in s.wires {
        ParcelStaysOk(c, s, s', p);
      }
    }
  }

  lemma JobsKept(c: Config, s: State, s': State)
    requires JobsInv(c, s) && Grows(s, s') && s'.jobs == s.jobs && s'.handled == s.handled
    ensures JobsInv(c, s')
  {
    forall p | p in s'.jobs ensures JobOk(c, s', p) {
      assert JobOk(c, s, p);
      ParcelStaysOk(c, s, s', p);
    }
  }

  lemma ReceivedKept(s: State, s': State)
    requires ReceivedInv(s) && s.nodes.Keys == s'.nodes.Keys && s'.jobs == s.jobs && s'.handled == s.handled
    requires forall v :: v in s.nodes ==> s'.nodes[v].received == s.nodes[v].received
    ensures ReceivedInv(s')
  {
    forall v, key | v in s'.nodes && key in s'.nodes[v].received ensures (v, key) in s'.handled || Waiting(s', v, key) {
      assert (v, key) in s.handled || Waiting(s, v, key);
    }
  }

  lemma HandledKept(c: Config, s: State, s': State)
    requires HandledInv(c, s) && Grows(s, s') && s'.handled == s.handled
    ensures HandledInv(c, s')
  {
    forall v, key | (v, key) in s'.handled ensures HandledOk(c, s', v, key) {
      HandledStaysOk(c, s, s', v, key);
    }
  }

  lemma CoveredStays(c: Config, s: State, s': State, y: Peer, f: Message)
    requires Grows(s, s') && Covered(s, y, f)
    requires forall p :: p in s.wires ==> p in s'.wires || Settled(s', p)
    requires StartedInv(s') && WiresInv(c, s) && f in s'.started
    ensures Covered(s', y, f)
  {
    if OnWire(s, y, MsgKey(f)) {
      var p :| p in s.wires && PeerOf(p) == y && MsgKey(p.message) == MsgKey(f);
      assert ParcelOk(c, s, p);
      var g :| g in s.started && CopyOf(p.message, g) && SentTo(c, g.from, PeerOf(p));
      CopySharesKey(p.message, g);
      assert g in s'.started && g == f;
    }
  }

  /** A parcel that is no longer under way was dropped at its origin, or accepted now or before. */
  ghost predicate Settled(s: State, p: Parcel) {
    || (p.dropsOwn && p.at == p.message.from)
    || (p.at in s.nodes && MsgKey(p.message) in s.nodes[p.at].received)
  }

  lemma CoverageKept(c: Config, s: State, s': State)
    requires CoverageInv(c, s) && Grows(s, s') && StartedInv(s') && WiresInv(c, s)
    requires forall p :: p in s.wires ==> p in s'.wires || Settled(s', p)
    requires forall f, x, y :: f in s'.started && Broadcast(s', x, f) && IsPeer(c, x, y) ==>
               (f in s.started && Broadcast(s, x, f)) || Covered(s', y, f)
    ensures CoverageInv(c, s')
  {
    forall f, x, y | f in s'.started && Broadcast(s', x, f) && IsPeer(c, x, y) ensures Covered(s', y, f) {
      if f in s.started && Broadcast(s, x, f) {
        CoveredStays(c, s, s', y, f);
      }
    }
  }

  lemma SubsKept(s: State, s': State)
    requires SubsInv(s) && Grows(s, s')
    requires forall v :: v in s.nodes ==> s'.nodes[v].totalSubs == s.nodes[v].totalSubs
    ensures SubsInv(s')
  {
    forall v, topic, x | v in s'.nodes && x in SubsOf(s'.nodes[v].totalSubs, topic) ensures SubOk(s', v, topic, x) {
      SubStaysOk(s, s', v, topic, x);
    }
  }

  /** A step after which nothing more has been accepted or handled. */
  lemma NothingHandled(c: Config, s: State, s': State)
    requires JobsInv(c, s) && ReceivedInv(s) && HandledInv(c, s) && SubsInv(s) && Grows(s, s')
    requires s'.jobs == s.jobs && s'.handled == s.handled
    requires forall v :: v in s.nodes ==>
               s'.nodes[v].received == s.nodes[v].received && s'.nodes[v].totalSubs == s.nodes[v].totalSubs
    ensures JobsInv(c, s') && ReceivedInv(s') && HandledInv(c, s') && SubsInv(s')
  {
    JobsKept(c, s, s');
    ReceivedKept(s, s');
    HandledKept(c, s, s');
    SubsKept(s, s');
  }

  /** And nothing sent. */
  lemma NothingNew(c: Config, s: State, s': State)
    requires Inv(c, s) && s'.nodes.Keys == s.nodes.Keys && s'.started == s.started
    requires s'.jobs == s.jobs && s'.handled == s.handled && forall p :: p in s'.wires ==> p in s.wires
    requires forall v :: v in s.nodes ==>
               && s'.nodes[v].counter >= s.nodes[v].counter
               && s'.nodes[v].received == s.nodes[v].received && s'.nodes[v].totalSubs == s.nodes[v].totalSubs
    requires forall p :: p in s.wires ==> p in s'.wires || Settled(s', p)
    ensures Inv(c, s')
  {
    assert Grows(s, s');
    StartedKept(s, s');
    WiresKept(c, s, s');
    NothingHandled(c, s, s');
    CoverageKept(c, s, s');
  }

  // The four steps ----------------------------------------------------------------

  lemma TickEffect(c: Config, s: State, v: Id)
    requires Enabled(c, s, Tick(v))
    ensures
      var s' := Apply(c, s, Tick(v));
      && s'.nodes.Keys == s.nodes.Keys && s'.started == s.started
      && s'.jobs == s.jobs && s'.handled == s.handled && s'.wires == s.wires
      && forall x :: x in s.nodes ==>
           && s'.nodes[x].counter >= s.nodes[x].counter
           && s'.nodes[x].received == s.nodes[x].received && s'.nodes[x].totalSubs == s.nodes[x].totalSubs
  {
  }

  lemma TickKeepsInv(c: Config, s: State, v: Id)
    requires Inv(c, s) && Enabled(c, s, Tick(v))
    ensures Inv(c, Apply(c, s, Tick(v)))
  {
    TickEffect(c, s, v);
    NothingNew(c, s, Apply(c, s, Tick(v)));
  }

  lemma FreshKey(s: State, o: Id, topic: string, f: Message)
    requires StartedInv(s) && o in s.nodes && f in s.started
    ensures MsgKey(f) != MsgKey(TopicInitMessage(o, topic, s.nodes[o].counter))
  {
    assert FloodOk(s, f);
    MsgKeyInjective(f, TopicInitMessage(o, topic, s.nodes[o].counter));
  }

  lemma StartKeepsStarted(c: Config, s: State, o: Id, topic: string)
    requires StartedInv(s) && Enabled(c, s, Start(o, topic))
    ensures StartedInv(Apply(c, s, Start(o, topic)))
  {
    var s' := Apply(c, s, Start(o, topic));
    var m := TopicInitMessage(o, topic, s.nodes[o].counter);
    forall f | f in s'.started ensures FloodOk(s', f) && (f != m ==> MsgKey(f) != MsgKey(m)) {
      if f in s.started {
        assert FloodOk(s, f);
        FreshKey(s, o, topic, f);
      }
    }
  }

  /** The new flood is covered: its first copies are under way to all peers of the origin. */
  lemma StartIsCovered(c: Config, s: State, o: Id, topic: string, x: Id, y: Peer)
    requires StartedInv(s) && HandledInv(c, s) && Enabled(c, s, Start(o, topic))
    requires
      var m := TopicInitMessage(o, topic, s.nodes[o].counter);
      Broadcast(Apply(c, s, Start(o, topic)), x, m) && IsPeer(c, x, y)
    ensures Covered(Apply(c, s, Start(o, topic)), y, TopicInitMessage(o, topic, s.nodes[o].counter))
  {
    var m := TopicInitMessage(o, topic, s.nodes[o].counter);
    if x == o {
      CopiesMembers(c.peers[o], m);
      assert Parcel(y.id, y.dropsOwn, m) in Apply(c, s, Start(o, topic)).wires;
    } else {
      assert HandledOk(c, s, x, MsgKey(m));
      var f :| f in s.started && MsgKey(f) == MsgKey(m);
      FreshKey(s, o, topic, f);
    }
  }

  lemma StartParcelOk(c: Config, s: State, o: Id, topic: string, p: Parcel)
    requires Closed(c) && s.nodes.Keys == c.peers.Keys && Enabled(c, s, Start(o, topic))
    requires p in Copies(c.peers[o], TopicInitMessage(o, topic, s.nodes[o].counter))
    ensures ParcelOk(c, Apply(c, s, Start(o, topic)), p)
  {
    var m := TopicInitMessage(o, topic, s.nodes[o].counter);
    CopiesMembers(c.peers[o], m);
    assert IsPeer(c, o, PeerOf(p)) && SentTo(c, o, PeerOf(p));
    assert m in Apply(c, s, Start(o, topic)).started && CopyOf(p.message, m);
  }

  lemma StartGrows(c: Config, s: State, o: Id, topic: string)
    requires Enabled(c, s, Start(o, topic))
    ensures Grows(s, Apply(c, s, Start(o, topic)))
  {
  }

  lemma StartKeepsWires(c: Config, s: State, o: Id, topic: string)
    requires WiresInv(c, s) && Closed(c) && s.nodes.Keys == c.peers.Keys && Enabled(c, s, Start(o, topic))
    ensures WiresInv(c, Apply(c, s, Start(o, topic)))
  {
    var s' := Apply(c, s, Start(o, topic));
    StartGrows(c, s, o, topic);
    forall p | p in s'.wires ensures p in s.wires || ParcelOk(c, s', p) {
      if p !in s.wires {
        StartParcelOk(c, s, o, topic, p);
      }
    }
    WiresKept(c, s, s');
  }

  lemma StartKeepsCoverage(c: Config, s: State, o: Id, topic: string)
    requires StartedInv(s) && WiresInv(c, s) && HandledInv(c, s) && CoverageInv(c, s) && Enabled(c, s, Start(o, topic))
    ensures CoverageInv(c, Apply(c, s, Start(o, topic)))
  {
    var s' := Apply(c, s, Start(o, topic));
    StartGrows(c, s, o, topic);
    StartKeepsStarted(c, s, o, topic);
    forall f, x, y | f in s'.started && Broadcast(s', x, f) && IsPeer(c, x, y)
      ensures (f in s.started && Broadcast(s, x, f)) || Covered(s', y, f)
    {
      if f !in s.started {
        StartIsCovered(c, s, o, topic, x, y);
      }
    }
    CoverageKept(c, s, s');
  }

  lemma StartKeepsInv(c: Config, s: State, o: Id, topic: string)
    requires Inv(c, s) && Enabled(c, s, Start(o, topic))
    ensures Inv(c, Apply(c, s, Start(o, topic)))
  {
    var s' := Apply(c, s, Start(o, topic));
    StartGrows(c, s, o, topic);
    StartKeepsStarted(c, s, o, topic);
    StartKeepsWires(c, s, o, topic);
    NothingHandled(c, s, s');
    StartKeepsCoverage(c, s, o, topic);
  }

  /** The flood a parcel belongs to. */
  lemma FloodOfParcel(c: Config, s: State, p: Parcel) returns (f: Message)
    requires StartedInv(s) && ParcelOk(c, s, p)
    ensures f in s.started && CopyOf(p.message, f) && SentTo(c, f.from, PeerOf(p))
    ensures MsgKey(f) == MsgKey(p.message) && p.message.kind == TOPIC_INIT && p.message.ttl == 1
  {
    f :| f in s.started && CopyOf(p.message, f) && SentTo(c, f.from, PeerOf(p));
    assert FloodOk(s, f);
  }

  predicate Accepts(s: State, p: Parcel)
    requires p.at in s.nodes
  {
    !(p.dropsOwn && p.message.from == p.at) && MsgKey(p.message) !in s.nodes[p.at].received
  }

  function Accept(s: State, p: Parcel): State
    requires p.at in s.nodes
  {
    var n := s.nodes[p.at];
    s.(nodes := s.nodes[p.at := n.(received := n.received + {MsgKey(p.message)})],
       wires := s.wires - multiset{p},
       jobs := s.jobs + multiset{p})
  }

  lemma ArriveEffect(c: Config, s: State, p: Parcel)
    requires StartedInv(s) && WiresInv(c, s) && Enabled(c, s, Arrive(p))
    ensures Apply(c, s, Arrive(p)) == if Accepts(s, p) then Accept(s, p) else s.(wires := s.wires - multiset{p})
  {
    var f := FloodOfParcel(c, s, p);
    if !Accepts(s, p) {
      assert s.nodes[p.at := s.nodes[p.at]] == s.nodes;
    }
  }

  lemma AcceptKeepsJobs(c: Config, s: State, p: Parcel)
    requires JobsInv(c, s) && HandledInv(c, s) && ParcelOk(c, s, p) && Accepts(s, p)
    ensures JobsInv(c, Accept(s, p))
  {
    var s' := Accept(s, p);
    assert Grows(s, s');
    assert (p.at, MsgKey(p.message)) !in s.handled by {
      assert (p.at, MsgKey(p.message)) in s.handled ==> HandledOk(c, s, p.at, MsgKey(p.message));
    }
    forall q | q in s'.jobs ensures JobOk(c, s', q) {
      assert q in s.jobs ==> JobOk(c, s, q);
      ParcelStaysOk(c, s, s', q);
    }
    forall q | q in s.jobs ensures q.at != p.at || MsgKey(q.message) != MsgKey(p.message) {
      assert JobOk(c, s, q);
    }
  }

  lemma AcceptKeepsReceived(s: State, p: Parcel)
    requires ReceivedInv(s) && p.at in s.nodes
    ensures ReceivedInv(Accept(s, p))
  {
    var s' := Accept(s, p);
    assert p in s'.jobs;
    forall v, key | v in s'.nodes && key in s'.nodes[v].received ensures (v, key) in s'.handled || Waiting(s', v, key) {
      if key in s.nodes[v].received && (v, key) !in s.handled {
        var q :| q in s.jobs && q.at == v && MsgKey(q.message) == key;
        assert q in s'.jobs;
      }
    }
  }

  lemma AcceptGrows(c: Config, s: State, p: Parcel)
    requires p.at in s.nodes
    ensures Grows(s, Accept(s, p))
  {
  }

  lemma AcceptKeepsCoverage(c: Config, s: State, p: Parcel)
    requires StartedInv(s) && WiresInv(c, s) && CoverageInv(c, s) && p in s.wires && p.at in s.nodes
    ensures StartedInv(Accept(s, p)) && CoverageInv(c, Accept(s, p))
  {
    AcceptGrows(c, s, p);
    StartedKept(s, Accept(s, p));
    CoverageKept(c, s, Accept(s, p));
  }

  lemma AcceptKeepsHistory(c: Config, s: State, p: Parcel)
    requires WiresInv(c, s) && HandledInv(c, s) && SubsInv(s) && p.at in s.nodes
    ensures WiresInv(c, Accept(s, p)) && HandledInv(c, Accept(s, p)) && SubsInv(Accept(s, p))
  {
    AcceptGrows(c, s, p);
    WiresKept(c, s, Accept(s, p));
    HandledKept(c, s, Accept(s, p));
    SubsKept(s, Accept(s, p));
  }

  lemma AcceptKeepsInv(c: Config, s: State, p: Parcel)
    requires Inv(c, s) && p in s.wires && p.at in s.nodes && Accepts(s, p)
    ensures Inv(c, Accept(s, p))
  {
    assert ParcelOk(c, s, p);
    AcceptKeepsHistory(c, s, p);
    AcceptKeepsJobs(c, s, p);
    AcceptKeepsReceived(s, p);
    AcceptKeepsCoverage(c, s, p);
  }

  lemma LoseKeepsInv(c: Config, s: State, p: Parcel)
    requires Inv(c, s) && p in s.wires && p.at in s.nodes && !Accepts(s, p)
    ensures Inv(c, s.(wires := s.wires - multiset{p}))
  {
    var s' := s.(wires := s.wires - multiset{p});
    NothingNew(c, s, s');
  }

  lemma ArriveKeepsInv(c: Config, s: State, p: Parcel)
    requires Inv(c, s) && Enabled(c, s, Arrive(p))
    ensures Inv(c, Apply(c, s, Arrive(p)))
  {
    ArriveEffect(c, s, p);
    if Accepts(s, p) {
      AcceptKeepsInv(c, s, p);
    } else {
      LoseKeepsInv(c, s, p);
    }
  }

  // Handle

  lemma HandleGrows(c: Config, s: State, p: Parcel)
    requires Enabled(c, s, Handle(p))
    ensures Grows(s, Apply(c, s, Handle(p)))
  {
  }

  lemma HandleParcelOk(c: Config, s: State, p: Parcel, q: Parcel)
    requires Closed(c) && s.nodes.Keys == c.peers.Keys && StartedInv(s) && ParcelOk(c, s, p) && p.at in c.peers
    requires q in Copies(c.peers[p.at], Rebroadcast(p.at, p.message))
    ensures ParcelOk(c, s, q)
  {
    var f := FloodOfParcel(c, s, p);
    CopiesMembers(c.peers[p.at], Rebroadcast(p.at, p.message));
    SentIsConnected(c, f.from, PeerOf(p));
    assert SentTo(c, f.from, PeerOf(q));
    assert CopyOf(q.message, f);
  }

  lemma HandleKeepsWires(c: Config, s: State, p: Parcel)
    requires Closed(c) && s.nodes.Keys == c.peers.Keys && StartedInv(s) && WiresInv(c, s) && JobsInv(c, s)
    requires Enabled(c, s, Handle(p))
    ensures WiresInv(c, Apply(c, s, Handle(p)))
  {
    var s' := Apply(c, s, Handle(p));
    HandleGrows(c, s, p);
    assert JobOk(c, s, p);
    forall q | q in s'.wires ensures q in s.wires || ParcelOk(c, s', q) {
      if q !in s.wires {
        HandleParcelOk(c, s, p, q);
        ParcelStaysOk(c, s, s', q);
      }
    }
    WiresKept(c, s, s');
  }

  lemma HandleKeepsJobs(c: Config, s: State, p: Parcel)
    requires JobsInv(c, s) && Enabled(c, s, Handle(p))
    ensures JobsInv(c, Apply(c, s, Handle(p)))
  {
    var s' := Apply(c, s, Handle(p));
    HandleGrows(c, s, p);
    assert JobOk(c, s, p);
    forall q | q in s'.jobs ensures JobOk(c, s', q) {
      assert q in s.jobs && q != p && JobOk(c, s, q);
      ParcelStaysOk(c, s, s', q);
    }
  }

  lemma HandleKeepsReceived(c: Config, s: State, p: Parcel)
    requires ReceivedInv(s) && Enabled(c, s, Handle(p))
    ensures ReceivedInv(Apply(c, s, Handle(p)))
  {
    var s' := Apply(c, s, Handle(p));
    forall v, key | v in s'.nodes && key in s'.nodes[v].received ensures (v, key) in s'.handled || Waiting(s', v, key) {
      if (v, key) !in s.handled {
        var q :| q in s.jobs && q.at == v && MsgKey(q.message) == key;
        if q == p {
          assert s'.handled[|s.handled|] == (v, key);
        } else {
          assert q in s'.jobs;
        }
      }
    }
  }

  lemma HandleKeepsHandled(c: Config, s: State, p: Parcel)
    requires StartedInv(s) && JobsInv(c, s) && HandledInv(c, s) && Enabled(c, s, Handle(p))
    ensures HandledInv(c, Apply(c, s, Handle(p)))
  {
    var s' := Apply(c, s, Handle(p));
    HandleGrows(c, s, p);
    assert JobOk(c, s, p);
    DistinctSnoc(s.handled, (p.at, MsgKey(p.message)));
    forall v, key | (v, key) in s'.handled ensures HandledOk(c, s', v, key) {
      if (v, key) in s.handled {
        HandledStaysOk(c, s, s', v, key);
      } else {
        HandledNowIsOk(c, s, p);
      }
    }
  }

  lemma HandledNowIsOk(c: Config, s: State, p: Parcel)
    requires StartedInv(s) && JobsInv(c, s) && Enabled(c, s, Handle(p))
    ensures HandledOk(c, Apply(c, s, Handle(p)), p.at, MsgKey(p.message))
  {
    assert JobOk(c, s, p);
    var f := FloodOfParcel(c, s, p);
    assert f.from in SubsOf(Apply(c, s, Handle(p)).nodes[p.at].totalSubs, f.data);
  }

  /** What a handler rebroadcasts covers the peers of its node. */
  lemma HandleIsCovered(c: Config, s: State, p: Parcel, y: Peer, f: Message)
    requires Enabled(c, s, Handle(p)) && MsgKey(f) == MsgKey(p.message) && IsPeer(c, p.at, y)
    ensures OnWire(Apply(c, s, Handle(p)), y, MsgKey(f))
  {
    var m := Rebroadcast(p.at, p.message);
    CopiesMembers(c.peers[p.at], m);
    assert Parcel(y.id, y.dropsOwn, m) in Apply(c, s, Handle(p)).wires && MsgKey(m) == MsgKey(p.message);
  }

  lemma HandleKeepsCoverage(c: Config, s: State, p: Parcel)
    requires StartedInv(s) && WiresInv(c, s) && CoverageInv(c, s) && Enabled(c, s, Handle(p))
    requires StartedInv(Apply(c, s, Handle(p)))
    ensures CoverageInv(c, Apply(c, s, Handle(p)))
  {
    var s' := Apply(c, s, Handle(p));
    HandleGrows(c, s, p);
    forall f, x, y | f in s'.started && Broadcast(s', x, f) && IsPeer(c, x, y)
      ensures (f in s.started && Broadcast(s, x, f)) || Covered(s', y, f)
    {
      if !Broadcast(s, x, f) {
        assert (x, MsgKey(f)) == (p.at, MsgKey(p.message));
        HandleIsCovered(c, s, p, y, f);
      }
    }
    CoverageKept(c, s, s');
  }

  lemma RecordSubAdds(subs: Subs, topic: string, sender: Id, other: string)
    requires Distinct(SubsOf(subs, other))
    ensures Distinct(SubsOf(RecordSub(subs, topic, sender), other))
    ensures forall x :: x in SubsOf(RecordSub(subs, topic, sender), other) <==>
              x in SubsOf(subs, other) || (x == sender && other == topic)
  {
  }

  lemma HandleRecords(c: Config, s: State, p: Parcel)
    requires StartedInv(s) && JobsInv(c, s) && Enabled(c, s, Handle(p))
    ensures SubOk(Apply(c, s, Handle(p)), p.at, p.message.data, p.message.from)
  {
    var s' := Apply(c, s, Handle(p));
    assert JobOk(c, s, p);
    var f := FloodOfParcel(c, s, p);
    assert f in s'.started && s'.handled[|s.handled|] == (p.at, MsgKey(f));
  }

  lemma HandleKeepsSubs(c: Config, s: State, p: Parcel)
    requires StartedInv(s) && JobsInv(c, s) && SubsInv(s) && Enabled(c, s, Handle(p))
    ensures SubsInv(Apply(c, s, Handle(p)))
  {
    var s' := Apply(c, s, Handle(p));
    HandleGrows(c, s, p);
    HandleRecords(c, s, p);
    forall v, topic | v in s'.nodes
      ensures Distinct(SubsOf(s'.nodes[v].totalSubs, topic))
      ensures forall x :: x in SubsOf(s'.nodes[v].totalSubs, topic) ==> SubOk(s', v, topic, x)
    {
      RecordSubAdds(s.nodes[v].totalSubs, p.message.data, p.message.from, topic);
      forall x | x in SubsOf(s'.nodes[v].totalSubs, topic) ensures SubOk(s', v, topic, x) {
        if x in SubsOf(s.nodes[v].totalSubs, topic) {
          SubStaysOk(s, s', v, topic, x);
        }
      }
    }
  }

  lemma HandleKeepsStarted(c: Config, s: State, p: Parcel)
    requires StartedInv(s) && Enabled(c, s, Handle(p))
    ensures StartedInv(Apply(c, s, Handle(p)))
  {
    StartedKept(s, Apply(c, s, Handle(p)));
  }

  lemma HandleKeepsInv(c: Config, s: State, p: Parcel)
    requires Inv(c, s) && Enabled(c, s, Handle(p))
    ensures Inv(c, Apply(c, s, Handle(p)))
  {
    HandleKeepsStarted(c, s, p);
    HandleKeepsWires(c, s, p);
    HandleKeepsJobs(c, s, p);
    HandleKeepsReceived(c, s, p);
    HandleKeepsHandled(c, s, p);
    HandleKeepsCoverage(c, s, p);
    HandleKeepsSubs(c, s, p);
  }
}
