/** What floods achieve over whole runs: handled once, ended after boundedly many steps, and complete. */
module FloodCoverage {
  import opened Common
  import opened Flooding
  import opened Messages

  // ---------------------------------------------------------------------------
  // The invariant holds in every state of every run
  // ---------------------------------------------------------------------------

  lemma StepKeepsInv(c: Config, s: State, step: Step)
    requires Inv(c, s) && Enabled(c, s, step)
    ensures Inv(c, Apply(c, s, step))
  {
    match step
    case Start(o, topic) => StartKeepsInv(c, s, o, topic);
    case Tick(v) => TickKeepsInv(c, s, v);
    case Arrive(p) => ArriveKeepsInv(c, s, p);
    case Handle(p) => HandleKeepsInv(c, s, p);
  }

  lemma {:induction false} RunKeepsInv(c: Config, states: seq<State>, steps: seq<Step>, i: nat)
    requires Closed(c) && IsRun(c, states, steps) && i < |states|
    ensures Inv(c, states[i])
    decreases i
  {
    if i > 0 {
      RunKeepsInv(c, states, steps, i - 1);
      StepKeepsInv(c, states[i - 1], steps[i - 1]);
      assert states[i - 1 + 1] == Apply(c, states[i - 1], steps[i - 1]);
    }
  }

  // ---------------------------------------------------------------------------
  // At most once per node
  // ---------------------------------------------------------------------------

  /** The nodes that have rebroadcast a flood, once for every time they did. */
  function HandlersOf(handled: seq<(Id, string)>, key: string): seq<Id> {
    if handled == [] then []
    else if handled[|handled| - 1].1 == key then HandlersOf(handled[..|handled| - 1], key) + [handled[|handled| - 1].0]
    else HandlersOf(handled[..|handled| - 1], key)
  }

  lemma {:induction false} HandlersMembers(handled: seq<(Id, string)>, key: string)
    ensures forall v :: v in HandlersOf(handled, key) <==> (v, key) in handled
    decreases |handled|
  {
    if handled != [] {
      var last := handled[|handled| - 1];
      HandlersMembers(handled[..|handled| - 1], key);
      assert handled == handled[..|handled| - 1] + [last];
      forall v ensures v in HandlersOf(handled, key) <==> (v, key) in handled {
        assert (v, key) in handled <==> (v, key) in handled[..|handled| - 1] || (v, key) == last;
      }
    }
  }

  lemma {:induction false} HandlersDistinct(handled: seq<(Id, string)>, key: string)
    requires Distinct(handled)
    ensures Distinct(HandlersOf(handled, key))
    decreases |handled|
  {
    if handled != [] {
      var init := handled[..|handled| - 1];
      HandlersDistinct(init, key);
      HandlersMembers(init, key);
      assert handled[|handled| - 1] !in init;
    }
  }

  /** In every run a node handles a flood at most once, so a flood is rebroadcast at most as often as there are nodes. */
  lemma HandledAtMostOnce(c: Config, states: seq<State>, steps: seq<Step>, i: nat, key: string)
    requires Closed(c) && IsRun(c, states, steps) && i < |states|
    ensures Distinct(HandlersOf(states[i].handled, key))
    ensures |HandlersOf(states[i].handled, key)| <= |c.peers.Keys|
  {
    var s := states[i];
    RunKeepsInv(c, states, steps, i);
    HandlersFit(c, s, key);
  }

  lemma HandlersFit(c: Config, s: State, key: string)
    requires HandledInv(c, s) && s.nodes.Keys == c.peers.Keys
    ensures Distinct(HandlersOf(s.handled, key)) && |HandlersOf(s.handled, key)| <= |c.peers.Keys|
  {
    HandlersDistinct(s.handled, key);
    HandlersMembers(s.handled, key);
    forall v | v in HandlersOf(s.handled, key) ensures v in c.peers.Keys {
      assert HandledOk(c, s, v, key);
    }
    DistinctFitIn(HandlersOf(s.handled, key), c.peers.Keys);
  }

  // ---------------------------------------------------------------------------
  // Complete, and nothing more
  // ---------------------------------------------------------------------------

  lemma PeerHandles(c: Config, s: State, f: Message, x: Id, y: Peer)
    requires Inv(c, s) && Quiescent(s) && f in s.started && Broadcast(s, x, f) && IsPeer(c, x, y)
    ensures !(y.dropsOwn && y.id == f.from) ==> (y.id, MsgKey(f)) in s.handled
  {
    assert Covered(s, y, f);
    assert !OnWire(s, y, MsgKey(f)) && !Waiting(s, y.id, MsgKey(f));
  }

  lemma {:induction false} RelayBroadcasts(c: Config, s: State, f: Message, w: seq<Id>, v: Id)
    requires Inv(c, s) && Quiescent(s) && f in s.started && IsRelay(c, w, f.from, v)
    ensures Broadcast(s, v, f)
    decreases |w|
  {
    var x := w[|w| - 2];
    assert Linked(c, w[|w| - 2], w[|w| - 2 + 1]);
    if |w| > 2 {
      var init := w[..|w| - 1];
      assert forall i :: 0 <= i < |init| - 1 ==> Linked(c, w[i], w[i + 1]);
      assert IsRelay(c, init, f.from, x);
      RelayBroadcasts(c, s, f, init, x);
    }
    PeerHandles(c, s, f, x, if IsPeer(c, x, Peer(v, true)) then Peer(v, true) else Peer(v, false));
  }

  lemma HearerHandles(c: Config, s: State, f: Message, v: Id)
    requires Inv(c, s) && Quiescent(s) && f in s.started && Hears(c, f.from, v)
    ensures (v, MsgKey(f)) in s.handled
  {
    var y := Peer(v, !SentTo(c, f.from, Peer(v, false)));
    var x :| (x == f.from || Connected(c, f.from, x)) && IsPeer(c, x, y);
    if x != f.from {
      var w :| IsRelay(c, w, f.from, x);
      RelayBroadcasts(c, s, f, w, x);
    }
    PeerHandles(c, s, f, x, y);
  }

  lemma HandledIsRecorded(c: Config, s: State, f: Message, v: Id)
    requires StartedInv(s) && HandledInv(c, s) && f in s.started && (v, MsgKey(f)) in s.handled
    ensures v in s.nodes && f.from in SubsOf(s.nodes[v].totalSubs, f.data)
    ensures Hears(c, f.from, v)
  {
    assert HandledOk(c, s, v, MsgKey(f));
    var g :| g in s.started && MsgKey(g) == MsgKey(f) && Hears(c, g.from, v)
             && g.from in SubsOf(s.nodes[v].totalSubs, g.data);
    assert g == f;
  }

  ghost predicate Announced(s: State, x: Id, topic: string) {
    exists f :: f in s.started && f.from == x && f.data == topic
  }

  lemma CoversExactly(c: Config, s: State, v: Id, topic: string, x: Id)
    requires Inv(c, s) && Quiescent(s) && v in s.nodes
    ensures x in SubsOf(s.nodes[v].totalSubs, topic)
       <==> Announced(s, x, topic) && Hears(c, x, v)
  {
    if x in SubsOf(s.nodes[v].totalSubs, topic) {
      assert SubOk(s, v, topic, x);
      var f :| f in s.started && f.from == x && f.data == topic && (v, MsgKey(f)) in s.handled;
      HandledIsRecorded(c, s, f, v);
    }
    if Announced(s, x, topic) && Hears(c, x, v) {
      var f :| f in s.started && f.from == x && f.data == topic;
      HearerHandles(c, s, f, v);
      HandledIsRecorded(c, s, f, v);
    }
  }

  /** The announcements on record are exactly those some step made. */
  lemma {:induction false} AnnouncedIffStarted(c: Config, states: seq<State>, steps: seq<Step>, k: nat, x: Id, topic: string)
    requires IsRun(c, states, steps) && k < |states|
    ensures Announced(states[k], x, topic) <==> Start(x, topic) in steps[..k]
    decreases k
  {
    if k > 0 {
      var s, step := states[k - 1], steps[k - 1];
      AnnouncedIffStarted(c, states, steps, k - 1, x, topic);
      assert Enabled(c, s, step) && states[k - 1 + 1] == Apply(c, s, step);
      StepAnnounces(c, s, step, x, topic);
      InLonger(steps, k, Start(x, topic));
    }
  }

  lemma InLonger(steps: seq<Step>, k: nat, step: Step)
    requires 0 < k <= |steps|
    ensures step in steps[..k] <==> step in steps[..k - 1] || step == steps[k - 1]
  {
    assert steps[..k] == steps[..k - 1] + [steps[k - 1]];
  }

  lemma StepAnnounces(c: Config, s: State, step: Step, x: Id, topic: string)
    requires Enabled(c, s, step)
    ensures Announced(Apply(c, s, step), x, topic) <==> Announced(s, x, topic) || step == Start(x, topic)
  {
    var s' := Apply(c, s, step);
    if step.Start? {
      var m := s'.started[|s.started|];
      assert s'.started == s.started + [m];
      assert m.from == step.origin && m.data == step.topic;
      assert forall f :: f in s'.started <==> f in s.started || f == m;
    } else {
      assert s'.started == s.started;
    }
  }

  /**
   * When no message is left, every node lists for every topic, once each, exactly the nodes that announced it in some step
   * of the run and that it hears: another node if it is connected (HearsIffConnected), itself over a channel that does not
   * drop its own.
   */
  lemma FloodsCoverExactly(c: Config, states: seq<State>, steps: seq<Step>, v: Id, topic: string)
    requires Closed(c) && IsRun(c, states, steps) && v in c.peers
    requires Quiescent(states[|steps|])
    ensures v in states[|steps|].nodes
    ensures
      var subs := SubsOf(states[|steps|].nodes[v].totalSubs, topic);
      Distinct(subs) && forall x :: x in subs <==> Start(x, topic) in steps && Hears(c, x, v)
  {
    var s := states[|steps|];
    RunKeepsInv(c, states, steps, |steps|);
    assert steps[..|steps|] == steps;
    forall x
      ensures x in SubsOf(s.nodes[v].totalSubs, topic)
         <==> Start(x, topic) in steps && Hears(c, x, v)
    {
      CoversExactly(c, s, v, topic, x);
      AnnouncedIffStarted(c, states, steps, |steps|, x, topic);
    }
  }

  // ---------------------------------------------------------------------------
  // Floods end
  // ---------------------------------------------------------------------------

  function OtherFloods(handled: seq<(Id, string)>, key: string): seq<(Id, string)> {
    if handled == [] then []
    else if handled[|handled| - 1].1 == key then OtherFloods(handled[..|handled| - 1], key)
    else OtherFloods(handled[..|handled| - 1], key) + [handled[|handled| - 1]]
  }

  lemma {:induction false} OtherFloodsRest(handled: seq<(Id, string)>, key: string)
    requires Distinct(handled)
    ensures Distinct(OtherFloods(handled, key))
    ensures forall h :: h in OtherFloods(handled, key) <==> h in handled && h.1 != key
    ensures |handled| == |OtherFloods(handled, key)| + |HandlersOf(handled, key)|
    decreases |handled|
  {
    if handled != [] {
      var init := handled[..|handled| - 1];
      OtherFloodsRest(init, key);
      assert handled == init + [handled[|handled| - 1]];
      assert handled[|handled| - 1] !in init;
    }
  }

  lemma SplitByKey(handled: seq<(Id, string)>, nodes: set<Id>, key: string)
    requires Distinct(handled) && forall h :: h in handled ==> h.0 in nodes
    ensures |handled| <= |OtherFloods(handled, key)| + |nodes|
  {
    OtherFloodsRest(handled, key);
    HandlersDistinct(handled, key);
    HandlersMembers(handled, key);
    forall v | v in HandlersOf(handled, key) ensures v in nodes {
      assert (v, key) in handled;
    }
    DistinctFitIn(HandlersOf(handled, key), nodes);
  }

  lemma OneMoreTimes(k: nat, n: nat)
    ensures (k + 1) * n == k * n + n
  {
  }

  ghost predicate PairsOf(handled: seq<(Id, string)>, nodes: set<Id>, keys: seq<string>) {
    forall h :: h in handled ==> h.0 in nodes && h.1 in keys
  }

  lemma PairsNeedKeys(handled: seq<(Id, string)>, nodes: set<Id>)
    requires handled != []
    ensures !PairsOf(handled, nodes, [])
  {
    assert handled[0] in handled;
  }

  /** Pairs of a node and a flood, none twice. */
  lemma {:induction false} PairsFit(handled: seq<(Id, string)>, nodes: set<Id>, keys: seq<string>)
    requires Distinct(handled) && PairsOf(handled, nodes, keys)
    ensures |handled| <= |keys| * |nodes|
    decreases |keys|
  {
    if keys == [] {
      if handled != [] {
        PairsNeedKeys(handled, nodes);
        assert false;
      }
    } else {
      var key, fewer := keys[|keys| - 1], keys[..|keys| - 1];
      SplitByKey(handled, nodes, key);
      OtherFloodsRest(handled, key);
      assert keys == fewer + [key];
      PairsFit(OtherFloods(handled, key), nodes, fewer);
      OneMoreTimes(|fewer|, |nodes|);
    }
  }

  function KeysOf(started: seq<Message>): seq<string> {
    seq(|started|, i requires 0 <= i < |started| => MsgKey(started[i]))
  }

  lemma HandledFits(c: Config, s: State)
    requires HandledInv(c, s)
    ensures |s.handled| <= |s.started| * |s.nodes.Keys|
  {
    var keys := KeysOf(s.started);
    forall h | h in s.handled ensures h.0 in s.nodes && h.1 in keys {
      assert (h.0, h.1) == h && HandledOk(c, s, h.0, h.1);
      var f :| f in s.started && MsgKey(f) == h.1;
      var i :| 0 <= i < |s.started| && s.started[i] == f;
      assert keys[i] == h.1;
    }
    PairsFit(s.handled, s.nodes.Keys, keys);
  }

  /** An upper bound on what is still to do: `w` wires, `a` floods, `n` nodes of at most `d` peers, `h` handled. */
  function Bound(w: nat, a: nat, n: nat, h: nat, d: nat): int {
    w + (d + 1) * (a * n - h)
  }

  function Potential(s: State, d: nat): int {
    Bound(|s.wires|, |s.started|, |s.nodes.Keys|, |s.handled|, d)
  }

  function PerFlood(nodes: nat, d: nat): nat {
    d + (d + 1) * nodes
  }

  ghost predicate DegreeAtMost(c: Config, d: nat) {
    forall x :: x in c.peers ==> |c.peers[x]| <= d
  }

  lemma Distribute(k: int, x: int, y: int)
    ensures k * (x + y) == k * x + k * y
  {
  }

  lemma BoundAfterStart(w: nat, w': nat, a: nat, n: nat, h: nat, d: nat)
    requires w' <= w + d
    ensures Bound(w', a + 1, n, h, d) <= Bound(w, a, n, h, d) + PerFlood(n, d)
  {
    assert (a + 1) * n == a * n + n;
    Distribute(d + 1, a * n - h, n);
  }

  lemma BoundAfterHandle(w: nat, w': nat, a: nat, n: nat, h: nat, d: nat)
    requires w' <= w + d
    ensures Bound(w', a, n, h + 1, d) <= Bound(w, a, n, h, d) - 1
  {
    Distribute(d + 1, a * n - h, -1);
  }

  /** How much a step may change the bound. */
  function Allowance(step: Step, perFlood: nat): int {
    match step
    case Start(_, _) => perFlood
    case Tick(_) => 0
    case _ => -1
  }

  lemma StartPotential(c: Config, s: State, o: Id, topic: string, d: nat)
    requires Enabled(c, s, Start(o, topic)) && DegreeAtMost(c, d)
    ensures Potential(Apply(c, s, Start(o, topic)), d) <= Potential(s, d) + PerFlood(|s.nodes.Keys|, d)
  {
    var s' := Apply(c, s, Start(o, topic));
    assert s'.nodes.Keys == s.nodes.Keys;
    CopiesMembers(c.peers[o], TopicInitMessage(o, topic, s.nodes[o].counter));
    BoundAfterStart(|s.wires|, |s'.wires|, |s.started|, |s.nodes.Keys|, |s.handled|, d);
  }

  lemma HandlePotential(c: Config, s: State, p: Parcel, d: nat)
    requires Enabled(c, s, Handle(p)) && DegreeAtMost(c, d)
    ensures Potential(Apply(c, s, Handle(p)), d) <= Potential(s, d) - 1
  {
    var s' := Apply(c, s, Handle(p));
    assert s'.nodes.Keys == s.nodes.Keys;
    CopiesMembers(c.peers[p.at], Rebroadcast(p.at, p.message));
    BoundAfterHandle(|s.wires|, |s'.wires|, |s.started|, |s.nodes.Keys|, |s.handled|, d);
  }

  lemma OneWireFewer(s: State, p: Parcel, d: nat)
    requires p in s.wires && p.at in s.nodes
    ensures Potential(Accept(s, p), d) == Potential(s, d) - 1
    ensures Potential(s.(wires := s.wires - multiset{p}), d) == Potential(s, d) - 1
  {
    assert |s.wires - multiset{p}| == |s.wires| - 1;
    assert Accept(s, p).nodes.Keys == s.nodes.Keys;
  }

  lemma ArrivePotential(c: Config, s: State, p: Parcel, d: nat)
    requires StartedInv(s) && WiresInv(c, s) && Enabled(c, s, Arrive(p))
    ensures Potential(Apply(c, s, Arrive(p)), d) == Potential(s, d) - 1
  {
    ArriveEffect(c, s, p);
    OneWireFewer(s, p, d);
  }

  lemma TickPotential(c: Config, s: State, v: Id, d: nat)
    requires Enabled(c, s, Tick(v))
    ensures Potential(Apply(c, s, Tick(v)), d) == Potential(s, d)
  {
    assert Apply(c, s, Tick(v)).nodes.Keys == s.nodes.Keys;
  }

  lemma StepPotential(c: Config, s: State, step: Step, d: nat)
    requires StartedInv(s) && WiresInv(c, s) && Enabled(c, s, step) && DegreeAtMost(c, d)
    ensures Potential(Apply(c, s, step), d) <= Potential(s, d) + Allowance(step, PerFlood(|s.nodes.Keys|, d))
  {
    match step
    case Start(o, topic) => StartPotential(c, s, o, topic, d);
    case Tick(v) => TickPotential(c, s, v, d);
    case Arrive(p) => ArrivePotential(c, s, p, d);
    case Handle(p) => HandlePotential(c, s, p, d);
  }

  function Starts(steps: seq<Step>): nat {
    if steps == [] then 0
    else Starts(steps[..|steps| - 1]) + if steps[|steps| - 1].Start? then 1 else 0
  }

  /** The arrivals and handlings of a run. */
  function Work(steps: seq<Step>): nat {
    if steps == [] then 0
    else Work(steps[..|steps| - 1]) + if steps[|steps| - 1].Arrive? || steps[|steps| - 1].Handle? then 1 else 0
  }

  lemma {:induction false} WorkIsPaidFor(steps: seq<Step>, bounds: seq<int>, perFlood: nat)
    requires |bounds| == |steps| + 1
    requires forall i :: 0 <= i < |steps| ==> bounds[i + 1] <= bounds[i] + Allowance(steps[i], perFlood)
    ensures Work(steps) + bounds[|steps|] <= bounds[0] + Starts(steps) * perFlood
    decreases |steps|
  {
    if steps != [] {
      var n := |steps| - 1;
      WorkIsPaidFor(steps[..n], bounds[..n + 1], perFlood);
      assert bounds[n + 1] <= bounds[n] + Allowance(steps[n], perFlood);
      Distribute(perFlood, Starts(steps[..n]), 1);
    }
  }

  lemma PotentialStartsAtZero(c: Config, s: State, d: nat)
    requires Init(c, s)
    ensures Potential(s, d) == 0
  {
  }

  lemma PotentialStaysNonNegative(c: Config, s: State, d: nat)
    requires HandledInv(c, s)
    ensures Potential(s, d) >= 0
  {
    HandledFits(c, s);
  }

  lemma RunPotential(c: Config, states: seq<State>, steps: seq<Step>, d: nat, i: nat)
    requires Closed(c) && IsRun(c, states, steps) && DegreeAtMost(c, d) && i < |steps|
    ensures Potential(states[i + 1], d) <= Potential(states[i], d) + Allowance(steps[i], PerFlood(|c.peers.Keys|, d))
  {
    RunKeepsInv(c, states, steps, i);
    StepPotential(c, states[i], steps[i], d);
  }

  /** Every flood costs boundedly many arrivals and handlings, whatever the order of steps. */
  lemma FloodsEnd(c: Config, states: seq<State>, steps: seq<Step>, d: nat)
    requires Closed(c) && IsRun(c, states, steps) && DegreeAtMost(c, d)
    ensures Work(steps) <= Starts(steps) * PerFlood(|c.peers.Keys|, d)
  {
    var bounds := seq(|states|, i requires 0 <= i < |states| => Potential(states[i], d));
    forall i | 0 <= i < |steps|
      ensures bounds[i + 1] <= bounds[i] + Allowance(steps[i], PerFlood(|c.peers.Keys|, d))
    {
      RunPotential(c, states, steps, d, i);
    }
    WorkIsPaidFor(steps, bounds, PerFlood(|c.peers.Keys|, d));
    PotentialStartsAtZero(c, states[0], d);
    RunKeepsInv(c, states, steps, |steps|);
    PotentialStaysNonNegative(c, states[|steps|], d);
  }

  /** And as long as a message is left, some arrival or handling is possible. */
  lemma NeverStuck(c: Config, s: State) returns (step: Step)
    requires Inv(c, s) && !Quiescent(s)
    ensures Enabled(c, s, step) && (step.Arrive? || step.Handle?)
  {
    if s.wires != multiset{} {
      var p :| p in s.wires;
      assert ParcelOk(c, s, p);
      step := Arrive(p);
    } else {
      var p :| p in s.jobs;
      assert JobOk(c, s, p);
      step := Handle(p);
    }
  }
}
