/**
 * A whole group: core nodes and learners, one atomic step per handler, over a network that loses, duplicates and
 * reorders messages (a packet once sent stays in `net` and may be handled any number of times, or never).
 */
module RaftSystem {
  import opened Common
  import opened RaftTypes
  import opened RaftNode
  import L = LearnerNode

  /** A term's leader and the log it has (had, once it stops leading). */
  datatype Tenure = Tenure(leader: Id, log: Log)

  /**
   * `ballots` and `tenures` are records of the past that no step looks at: who voted for whom in which term,
   * and who led which term with what log.
   */
  datatype System = System(
    peers: seq<Id>,
    nodes: map<Id, Core>,
    learners: map<Id, L.Learner>,
    net: set<Packet>,
    ballots: map<(Id, int), Id>,
    tenures: map<int, Tenure>)

  function PeerSet(peers: seq<Id>): set<Id> {
    set i | 0 <= i < |peers| :: peers[i]
  }

  /** All nodes share one duplicate-free list of peers, none of them named by the empty string. */
  ghost predicate Config(s: System) {
    && (forall i, j :: 0 <= i < j < |s.peers| ==> s.peers[i] != s.peers[j])
    && "" !in s.peers
    && s.nodes.Keys == PeerSet(s.peers)
    && (forall n :: n in s.nodes ==> s.nodes[n].id == n)
    && (forall l :: l in s.learners ==> s.learners[l].id == l)
  }

  function NewCore(id: Id): Core {
    Core(id, Follower, 0, "", [], 0, 0, map[], map[], map[], "", {}, EMPTY_DISK)
  }

  function NewLearner(id: Id): L.Learner {
    L.Learner(id, 0, [], 0, 0, "", EMPTY_DISK)
  }

  ghost predicate Init(s: System) {
    && Config(s)
    && (forall n :: n in s.nodes ==> s.nodes[n] == NewCore(n))
    && (forall l :: l in s.learners ==> s.learners[l] == NewLearner(l))
    && s.net == {} && s.ballots == map[] && s.tenures == map[]
  }

  // ---------------------------------------------------------------------------
  // Steps
  // ---------------------------------------------------------------------------

  datatype Step =
    | ElectStep(node: Id)
    | VoteStep(node: Id, packet: Packet)
    | VoteReplyStep(node: Id, packet: Packet)
    | AppendStep(node: Id, packet: Packet)
    | AppendReplyStep(node: Id, packet: Packet)
    | ProposeStep(node: Id, cmd: Command)
    | SendStep(node: Id, dst: Id)
    | HeartbeatStep(node: Id, dst: Id, commitIndex: int)
    | CrashStep(node: Id, stored: int)
    | LearnStep(learner: Id, packet: Packet)
    | LearnerRestartStep(learner: Id)

  datatype Effect = Effect(core: Core, sent: set<Packet>)

  /** What a step of a core node does; `None` when it is not possible, or panics. */
  ghost function EffectOf(s: System, c: Core, step: Step): Option<Effect>
    requires !step.LearnStep? && !step.LearnerRestartStep?
  {
    match step
    case ElectStep(_) =>
      if c.role != Leader
      then Some(Effect(StartElection(c), set p | p in VoteRequests(StartElection(c), s.peers)))
      else None
    case VoteStep(n, pkt) =>
      if pkt in s.net && pkt.dst == n && pkt.payload.RequestVote? then
        var (c', granted) := HandleRequestVote(c, pkt.payload);
        Some(Effect(c', {VoteReply(c', granted, pkt.payload.candidateId)}))
      else None
    case VoteReplyStep(n, pkt) =>
      if pkt in s.net && pkt.dst == n && pkt.payload.RequestVoteResponse?
      then Some(Effect(HandleRequestVoteResponse(c, pkt.payload, s.peers), {}))
      else None
    case AppendStep(n, pkt) =>
      if pkt in s.net && pkt.dst == n && Shaped(c) && WellFormedAppend(pkt.payload) then
        var a := HandleAppendEntries(c, pkt.payload);
        Some(Effect(a.core, {AppendReply(a, pkt.payload.leaderId)}))
      else None
    case AppendReplyStep(n, pkt) =>
      if pkt in s.net && pkt.dst == n && pkt.payload.AppendEntriesResponse? && Shaped(c) then
        match HandleAppendEntriesResponse(c, pkt.src, pkt.payload, s.peers)
        case Some(c') => Some(Effect(c', {}))
        case None => None
      else None
    case ProposeStep(_, cmd) =>
      if c.role == Leader && Shaped(c) then Some(Effect(ProposeCommand(c, cmd), {})) else None
    case SendStep(n, dst) =>
      if c.role == Leader && dst != n then
        match SendAppendEntriesTo(c, dst)
        case Some(p) => Some(Effect(c, {Packet(n, dst, p)}))
        case None => None
      else None
    case HeartbeatStep(n, dst, commitIndex) =>
      if c.role == Leader && dst != n
      then Some(Effect(c, {Packet(n, dst, SendHeartbeat(c, dst, c.term, commitIndex))}))
      else None
    // a crash may strike right after a higher term was stored, before the vote in it was
    case CrashStep(n, stored) =>
      var m := c.disk.LoadMeta();
      var disk := if stored > c.term then c.disk.(meta := Some(Meta(stored, "", m.commitIndex, m.lastApplied))) else c.disk;
      match Restart(n, disk)
      case Some(c') => Some(Effect(c', {}))
      case None => None
  }

  /** The system after node `c` changed its state and sent `sent`. */
  function Record(s: System, c: Core, sent: set<Packet>): System {
    s.(nodes := s.nodes[c.id := c],
       net := s.net + sent,
       ballots := if c.votedFor != "" then s.ballots[(c.id, c.term) := c.votedFor] else s.ballots,
       tenures := if c.role == Leader then s.tenures[c.term := Tenure(c.id, c.log)] else s.tenures)
  }

  ghost predicate Next(s: System, s': System, step: Step) {
    match step
    case LearnStep(l, pkt) =>
      && l in s.learners && pkt in s.net && pkt.dst == l
      && L.Shaped(s.learners[l]) && WellFormedAppend(pkt.payload)
      && var a := L.HandleAppendEntries(s.learners[l], pkt.payload);
      && s' == s.(learners := s.learners[l := a.learner], net := s.net + {L.AppendReply(a, pkt.payload.leaderId)})
    case LearnerRestartStep(l) =>
      && l in s.learners
      && var r := L.Restart(l, s.learners[l].disk);
      && r.Some?
      && s' == s.(learners := s.learners[l := r.value])
    case _ =>
      && step.node in s.nodes
      && var e := EffectOf(s, s.nodes[step.node], step);
      && e.Some?
      && s' == Record(s, e.value.core, e.value.sent)
  }

  ghost predicate Run(run: seq<System>, steps: seq<Step>) {
    && |run| == |steps| + 1
    && Init(run[0])
    && forall i :: 0 <= i < |steps| ==> Next(run[i], run[i + 1], steps[i])
  }

  ghost predicate CrashFree(steps: seq<Step>) {
    forall i :: 0 <= i < |steps| ==> !steps[i].CrashStep?
  }
}
