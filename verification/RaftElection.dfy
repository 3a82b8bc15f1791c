/** Election Safety (Raft, section 5.2 and Figure 3): over every run, crashes included, a term has at most one leader. */
module RaftElection {
  import opened Common
  import opened RaftTypes
  import opened RaftNode
  import opened RaftSystem
  import L = LearnerNode

  ghost predicate Voted(s: System, v: Id, term: int, candidate: Id) {
    (v, term) in s.ballots && s.ballots[(v, term)] == candidate
  }

  ghost predicate Quorum(s: System, q: set<Id>, term: int, candidate: Id) {
    && q <= PeerSet(s.peers)
    && 2 * |q| > |s.peers|
    && forall v :: v in q ==> Voted(s, v, term, candidate)
  }

  ghost predicate NodeInv(s: System, c: Core) {
    && Persisted(c)
    && (c.votedFor != "" ==> Voted(s, c.id, c.term, c.votedFor))
    && (c.role != Follower ==> forall v :: v in Granted(c.votes) ==> v in s.nodes && Voted(s, v, c.term, c.id))
    && (c.role == Leader ==> c.term in s.tenures && s.tenures[c.term].leader == c.id)
  }

  /** A vote is for a real candidate, not for a future term, and not forgotten while its term lasts. */
  ghost predicate BallotInv(s: System, v: Id, term: int) {
    (v, term) in s.ballots ==>
      && s.ballots[(v, term)] != ""
      && v in s.nodes
      && term <= s.nodes[v].term
      && (term == s.nodes[v].term ==> s.nodes[v].votedFor == s.ballots[(v, term)])
  }

  ghost predicate PacketInv(s: System, p: Packet) {
    match p.payload
    case RequestVote(_, candidateId, _, _) => candidateId != ""
    case RequestVoteResponse(term, granted, candidateId, senderId) =>
      p.dst == candidateId && (granted ==> senderId in s.nodes && Voted(s, senderId, term, candidateId))
    case _ => true
  }

  ghost predicate ElectionInv(s: System) {
    && Config(s)
    && (forall n :: n in s.nodes ==> NodeInv(s, s.nodes[n]))
    && (forall v, t :: BallotInv(s, v, t))
    && (forall p :: p in s.net ==> PacketInv(s, p))
    && (forall t :: t in s.tenures ==> exists q :: Quorum(s, q, t, s.tenures[t].leader))
  }

  /** What one step of a node has to respect. */
  ghost predicate Lawful(s: System, c: Core, c': Core, sent: set<Packet>) {
    var s' := Record(s, c', sent);
    && c'.id == c.id && c'.term >= c.term && Persisted(c')
    && (c'.term == c.term && c.votedFor != "" ==> c'.votedFor == c.votedFor)
    && (c'.role != Follower ==> forall v :: v in Granted(c'.votes) ==> v in s.nodes && Voted(s', v, c'.term, c'.id))
    && (c'.role == Leader ==> (c.role == Leader && c.term == c'.term) || HasMajorityVotes(c'.votes, s.peers))
    && (forall p :: p in sent ==> PacketInv(s', p))
  }

  // ---------------------------------------------------------------------------
  // Majorities meet
  // ---------------------------------------------------------------------------

  lemma SubsetSize<T>(a: set<T>, b: set<T>)
    requires a <= b
    ensures |a| <= |b|
  {
    if a != {} {
      var x :| x in a;
      SubsetSize(a - {x}, b - {x});
    }
  }

  lemma {:induction false} PeerSetSize(peers: seq<Id>)
    requires forall i, j :: 0 <= i < j < |peers| ==> peers[i] != peers[j]
    ensures |PeerSet(peers)| == |peers|
    decreases |peers|
  {
    if peers != [] {
      var front, last := peers[..|peers| - 1], peers[|peers| - 1];
      PeerSetSize(front);
      assert PeerSet(peers) == PeerSet(front) + {last} by {
        forall x ensures x in PeerSet(peers) <==> x in PeerSet(front) + {last} {
          if x in PeerSet(peers) {
            var i :| 0 <= i < |peers| && peers[i] == x;
            if i < |front| {
              assert front[i] == x;
            }
          }
          if x in PeerSet(front) {
            var i :| 0 <= i < |front| && front[i] == x;
            assert peers[i] == x;
          }
        }
      }
      assert last !in PeerSet(front);
    } else {
      assert PeerSet(peers) == {};
    }
  }

  lemma QuorumsAgree(s: System, q1: set<Id>, q2: set<Id>, term: int, a: Id, b: Id)
    requires Config(s)
    requires Quorum(s, q1, term, a) && Quorum(s, q2, term, b)
    ensures a == b
  {
    assert q1 * q2 != {} by {
      PeerSetSize(s.peers);
      SubsetSize(q1 + q2, PeerSet(s.peers));
      assert |q1 + q2| == |q1| + |q2| - |q1 * q2|;
    }
    var v :| v in q1 * q2;
    assert Voted(s, v, term, a) && Voted(s, v, term, b);
  }

  // ---------------------------------------------------------------------------
  // One step
  // ---------------------------------------------------------------------------

  lemma BallotsGrow(s: System, c': Core, sent: set<Packet>)
    requires ElectionInv(s) && c'.id in s.nodes && Lawful(s, s.nodes[c'.id], c', sent)
    ensures forall v, t, a :: Voted(s, v, t, a) ==> Voted(Record(s, c', sent), v, t, a)
  {
    assert BallotInv(s, c'.id, c'.term);
  }

  /** Whoever leads after a step has a majority behind it. */
  lemma LeaderHasQuorum(s: System, c': Core, sent: set<Packet>) returns (q: set<Id>)
    requires ElectionInv(s) && c'.id in s.nodes && Lawful(s, s.nodes[c'.id], c', sent)
    requires c'.role == Leader
    ensures Quorum(Record(s, c', sent), q, c'.term, c'.id)
  {
    var c := s.nodes[c'.id];
    BallotsGrow(s, c', sent);
    if c.role == Leader && c.term == c'.term {
      assert NodeInv(s, c);
      q :| Quorum(s, q, c.term, c.id);
    } else {
      q := Granted(c'.votes);
    }
  }

  /** Two quorums of one term elect one node. */
  lemma LeaderIsTheOne(s: System, c': Core, sent: set<Packet>)
    requires ElectionInv(s) && c'.id in s.nodes && Lawful(s, s.nodes[c'.id], c', sent)
    requires c'.role == Leader && c'.term in s.tenures
    ensures s.tenures[c'.term].leader == c'.id
  {
    var s', a := Record(s, c', sent), s.tenures[c'.term].leader;
    var q' := LeaderHasQuorum(s, c', sent);
    var q :| Quorum(s, q, c'.term, a);
    assert Quorum(s', q, c'.term, a) by {
      BallotsGrow(s, c', sent);
    }
    assert Config(s');
    QuorumsAgree(s', q, q', c'.term, a, c'.id);
  }

  /** So a term's leader is never replaced by another. */
  lemma TenuresKeepLeader(s: System, c': Core, sent: set<Packet>)
    requires ElectionInv(s) && c'.id in s.nodes && Lawful(s, s.nodes[c'.id], c', sent)
    ensures
      var s' := Record(s, c', sent);
      forall t :: t in s.tenures ==> t in s'.tenures && s'.tenures[t].leader == s.tenures[t].leader
  {
    if c'.role == Leader && c'.term in s.tenures {
      LeaderIsTheOne(s, c', sent);
    }
  }

  lemma LawfulKeepsBallots(s: System, c': Core, sent: set<Packet>, v: Id, t: int)
    requires ElectionInv(s) && c'.id in s.nodes && Lawful(s, s.nodes[c'.id], c', sent)
    ensures BallotInv(Record(s, c', sent), v, t)
  {
    assert BallotInv(s, v, t);
    assert BallotInv(s, c'.id, c'.term);
  }

  lemma LawfulKeepsNode(s: System, c': Core, sent: set<Packet>, n: Id)
    requires ElectionInv(s) && c'.id in s.nodes && n in s.nodes && Lawful(s, s.nodes[c'.id], c', sent)
    ensures NodeInv(Record(s, c', sent), Record(s, c', sent).nodes[n])
  {
    BallotsGrow(s, c', sent);
    TenuresKeepLeader(s, c', sent);
    assert NodeInv(s, s.nodes[n]);
  }

  lemma LawfulKeepsPacket(s: System, c': Core, sent: set<Packet>, p: Packet)
    requires ElectionInv(s) && c'.id in s.nodes && Lawful(s, s.nodes[c'.id], c', sent)
    requires p in s.net
    ensures PacketInv(Record(s, c', sent), p)
  {
    BallotsGrow(s, c', sent);
    assert PacketInv(s, p);
  }

  lemma LawfulKeepsNodes(s: System, c': Core, sent: set<Packet>)
    requires ElectionInv(s) && c'.id in s.nodes && Lawful(s, s.nodes[c'.id], c', sent)
    ensures forall n :: n in Record(s, c', sent).nodes ==> NodeInv(Record(s, c', sent), Record(s, c', sent).nodes[n])
  {
    forall n | n in Record(s, c', sent).nodes ensures NodeInv(Record(s, c', sent), Record(s, c', sent).nodes[n]) {
      LawfulKeepsNode(s, c', sent, n);
    }
  }

  lemma LawfulKeepsNet(s: System, c': Core, sent: set<Packet>)
    requires ElectionInv(s) && c'.id in s.nodes && Lawful(s, s.nodes[c'.id], c', sent)
    ensures forall p :: p in Record(s, c', sent).net ==> PacketInv(Record(s, c', sent), p)
  {
    var s' := Record(s, c', sent);
    forall p | p in s'.net ensures PacketInv(s', p) {
      if p !in sent {
        LawfulKeepsPacket(s, c', sent, p);
      }
    }
  }

  lemma LawfulKeepsTenure(s: System, c': Core, sent: set<Packet>, t: int)
    requires ElectionInv(s) && c'.id in s.nodes && Lawful(s, s.nodes[c'.id], c', sent)
    requires t in Record(s, c', sent).tenures
    ensures exists q :: Quorum(Record(s, c', sent), q, t, Record(s, c', sent).tenures[t].leader)
  {
    var s' := Record(s, c', sent);
    if c'.role == Leader && t == c'.term {
      var q := LeaderHasQuorum(s, c', sent);
    } else {
      BallotsGrow(s, c', sent);
      var q :| Quorum(s, q, t, s.tenures[t].leader);
      assert Quorum(s', q, t, s'.tenures[t].leader);
    }
  }

  lemma LawfulKeepsTenures(s: System, c': Core, sent: set<Packet>)
    requires ElectionInv(s) && c'.id in s.nodes && Lawful(s, s.nodes[c'.id], c', sent)
    ensures
      var s' := Record(s, c', sent);
      forall t :: t in s'.tenures ==> exists q :: Quorum(s', q, t, s'.tenures[t].leader)
  {
    var s' := Record(s, c', sent);
    forall t | t in s'.tenures ensures exists q :: Quorum(s', q, t, s'.tenures[t].leader) {
      LawfulKeepsTenure(s, c', sent, t);
    }
  }

  lemma RecordKeepsConfig(s: System, c': Core, sent: set<Packet>)
    requires Config(s) && c'.id in s.nodes
    ensures Config(Record(s, c', sent))
  {
    assert Record(s, c', sent).nodes.Keys == s.nodes.Keys;
  }

  lemma LawfulKeepsInv(s: System, c': Core, sent: set<Packet>)
    requires ElectionInv(s) && c'.id in s.nodes && Lawful(s, s.nodes[c'.id], c', sent)
    ensures ElectionInv(Record(s, c', sent))
  {
    RecordKeepsConfig(s, c', sent);
    forall v, t ensures BallotInv(Record(s, c', sent), v, t) {
      LawfulKeepsBallots(s, c', sent, v, t);
    }
    LawfulKeepsNodes(s, c', sent);
    LawfulKeepsNet(s, c', sent);
    LawfulKeepsTenures(s, c', sent);
  }

  lemma {:induction false} VoteRequestsNameTheSender(c: Core, peers: seq<Id>)
    ensures forall p :: p in VoteRequests(c, peers) ==> p.payload.RequestVote? && p.payload.candidateId == c.id
    decreases |peers|
  {
    if peers != [] {
      VoteRequestsNameTheSender(c, peers[1..]);
    }
  }

  lemma ElectLawful(s: System, n: Id)
    requires ElectionInv(s) && n in s.nodes && EffectOf(s, s.nodes[n], ElectStep(n)).Some?
    ensures var e := EffectOf(s, s.nodes[n], ElectStep(n)).value; Lawful(s, s.nodes[n], e.core, e.sent)
  {
    var c := s.nodes[n];
    VoteRequestsNameTheSender(StartElection(c), s.peers);
    assert n != "" by {
      assert n in PeerSet(s.peers);
    }
  }

  lemma VoteLawful(s: System, n: Id, pkt: Packet)
    requires ElectionInv(s) && n in s.nodes && pkt in s.net && pkt.payload.RequestVote?
    ensures
      var (c', granted) := HandleRequestVote(s.nodes[n], pkt.payload);
      Lawful(s, s.nodes[n], c', {VoteReply(c', granted, pkt.payload.candidateId)})
  {
    var c := s.nodes[n];
    assert NodeInv(s, c) && PacketInv(s, pkt);
    HandleRequestVoteEffect(c, pkt.payload);
    var (c', granted) := HandleRequestVote(c, pkt.payload);
    CountsLawful(s, c', {VoteReply(c', granted, pkt.payload.candidateId)});
  }

  /** A step that casts at most one vote and counts none. */
  lemma CountsLawful(s: System, c': Core, sent: set<Packet>)
    requires ElectionInv(s) && c'.id in s.nodes
    requires
      var c := s.nodes[c'.id];
      && Persisted(c') && c'.term >= c.term
      && (c'.term == c.term ==> c'.role == c.role && c'.votes == c.votes)
      && (c'.term == c.term && c.votedFor != "" ==> c'.votedFor == c.votedFor)
      && (c'.term > c.term ==> c'.role == Follower)
    requires forall p :: p in sent ==> PacketInv(Record(s, c', sent), p)
    ensures Lawful(s, s.nodes[c'.id], c', sent)
  {
    assert NodeInv(s, s.nodes[c'.id]);
    assert BallotInv(s, c'.id, c'.term);
  }

  lemma VoteReplyLawful(s: System, n: Id, pkt: Packet)
    requires ElectionInv(s) && n in s.nodes && pkt in s.net && pkt.dst == n && pkt.payload.RequestVoteResponse?
    ensures Lawful(s, s.nodes[n], HandleRequestVoteResponse(s.nodes[n], pkt.payload, s.peers), {})
  {
    var c := s.nodes[n];
    assert NodeInv(s, c) && PacketInv(s, pkt);
    HandleRequestVoteResponseEffect(c, pkt.payload, s.peers);
    var c' := HandleRequestVoteResponse(c, pkt.payload, s.peers);
    if StepsDownOrStays(c, c') {
      QuietLawful(s, c', {});
    } else {
      CountedLawful(s, c', pkt.payload.senderId, pkt.payload.voteGranted);
    }
  }

  /** A step that adds one vote, which was really cast, and perhaps takes the lead because of it. */
  lemma CountedLawful(s: System, c': Core, voter: Id, granted: bool)
    requires ElectionInv(s) && c'.id in s.nodes
    requires granted ==> voter in s.nodes && Voted(s, voter, c'.term, c'.id)
    requires
      var c := s.nodes[c'.id];
      && Persisted(c') && c'.term == c.term && c'.votedFor == c.votedFor
      && Granted(c'.votes) <= Granted(c.votes) + (if granted then {voter} else {})
      && (c'.role == c.role || (c.role == Candidate && c'.role == Leader && HasMajorityVotes(c'.votes, s.peers)))
    ensures Lawful(s, s.nodes[c'.id], c', {})
  {
    assert NodeInv(s, s.nodes[c'.id]);
  }

  /** A step that keeps term, vote, role and votes, or steps down, is harmless. */
  lemma QuietLawful(s: System, c': Core, sent: set<Packet>)
    requires ElectionInv(s) && c'.id in s.nodes && StepsDownOrStays(s.nodes[c'.id], c')
    requires forall p :: p in sent ==> !p.payload.RequestVote? && !p.payload.RequestVoteResponse?
    ensures Lawful(s, s.nodes[c'.id], c', sent)
  {
    assert NodeInv(s, s.nodes[c'.id]);
    assert BallotInv(s, c'.id, c'.term);
  }

  lemma AppendLawful(s: System, n: Id, pkt: Packet)
    requires ElectionInv(s) && n in s.nodes && Shaped(s.nodes[n]) && WellFormedAppend(pkt.payload)
    ensures
      var a := HandleAppendEntries(s.nodes[n], pkt.payload);
      Lawful(s, s.nodes[n], a.core, {AppendReply(a, pkt.payload.leaderId)})
  {
    assert NodeInv(s, s.nodes[n]);
    HandleAppendEntriesEffect(s.nodes[n], pkt.payload);
    var a := HandleAppendEntries(s.nodes[n], pkt.payload);
    QuietLawful(s, a.core, {AppendReply(a, pkt.payload.leaderId)});
  }

  lemma CrashLawful(s: System, n: Id, stored: int)
    requires ElectionInv(s) && n in s.nodes && EffectOf(s, s.nodes[n], CrashStep(n, stored)).Some?
    ensures var e := EffectOf(s, s.nodes[n], CrashStep(n, stored)).value; Lawful(s, s.nodes[n], e.core, e.sent)
  {
    assert NodeInv(s, s.nodes[n]);
  }

  lemma VotingLawful(s: System, step: Step)
    requires ElectionInv(s) && (step.ElectStep? || step.VoteStep? || step.VoteReplyStep? || step.CrashStep?)
    requires step.node in s.nodes && EffectOf(s, s.nodes[step.node], step).Some?
    ensures
      var e := EffectOf(s, s.nodes[step.node], step).value;
      Lawful(s, s.nodes[step.node], e.core, e.sent)
  {
    match step {
      case ElectStep(n) => ElectLawful(s, n);
      case VoteStep(n, pkt) => VoteLawful(s, n, pkt);
      case VoteReplyStep(n, pkt) => VoteReplyLawful(s, n, pkt);
      case CrashStep(n, stored) => CrashLawful(s, n, stored);
    }
  }

  lemma StepLawful(s: System, step: Step)
    requires ElectionInv(s) && !step.LearnStep? && !step.LearnerRestartStep?
    requires step.node in s.nodes && EffectOf(s, s.nodes[step.node], step).Some?
    ensures
      var e := EffectOf(s, s.nodes[step.node], step).value;
      Lawful(s, s.nodes[step.node], e.core, e.sent)
  {
    if step.ElectStep? || step.VoteStep? || step.VoteReplyStep? || step.CrashStep? {
      VotingLawful(s, step);
    } else if step.AppendStep? {
      AppendLawful(s, step.node, step.packet);
    } else {
      var c := s.nodes[step.node];
      var e := EffectOf(s, c, step).value;
      assert NodeInv(s, c);
      if step.AppendReplyStep? {
        HandleAppendEntriesResponseEffect(c, step.packet.src, step.packet.payload, s.peers);
      }
      QuietLawful(s, e.core, e.sent);
    }
  }

  /** A step of a core node, seen from the outside. */
  lemma NextIsRecord(s: System, s': System, step: Step) returns (e: Effect)
    requires Next(s, s', step) && !step.LearnStep? && !step.LearnerRestartStep?
    ensures step.node in s.nodes && EffectOf(s, s.nodes[step.node], step) == Some(e)
    ensures s' == Record(s, e.core, e.sent)
  {
    e := EffectOf(s, s.nodes[step.node], step).value;
  }

  lemma ElectionNext(s: System, s': System, step: Step)
    requires ElectionInv(s) && Next(s, s', step)
    ensures ElectionInv(s')
    ensures forall t :: t in s.tenures ==> t in s'.tenures && s'.tenures[t].leader == s.tenures[t].leader
  {
    if step.LearnStep? || step.LearnerRestartStep? {
      LearnerStepFrame(s, s', step);
      LearnerStepKeepsInv(s, s');
    } else {
      var e := NextIsRecord(s, s', step);
      StepLawful(s, step);
      LawfulKeepsInv(s, e.core, e.sent);
      TenuresKeepLeader(s, e.core, e.sent);
    }
  }

  /** A step of a learner touches no core node, and sends at most a reply to an AppendEntries message. */
  ghost predicate CoresUntouched(s: System, s': System) {
    && s'.peers == s.peers && s'.nodes == s.nodes && s'.ballots == s.ballots && s'.tenures == s.tenures
    && (forall p :: p in s'.net ==> p in s.net || p.payload.AppendEntriesResponse?)
  }

  lemma LearnerStepFrame(s: System, s': System, step: Step)
    requires Config(s) && Next(s, s', step) && (step.LearnStep? || step.LearnerRestartStep?)
    ensures Config(s') && CoresUntouched(s, s')
  {
  }

  lemma LearnerStepKeepsInv(s: System, s': System)
    requires ElectionInv(s) && Config(s') && CoresUntouched(s, s')
    ensures ElectionInv(s')
  {
    forall n | n in s'.nodes ensures NodeInv(s', s'.nodes[n]) {
      assert NodeInv(s, s.nodes[n]);
    }
    forall v, t ensures BallotInv(s', v, t) {
      assert BallotInv(s, v, t);
    }
    forall p | p in s'.net ensures PacketInv(s', p) {
      assert p in s.net ==> PacketInv(s, p);
    }
    forall t | t in s'.tenures ensures exists q :: Quorum(s', q, t, s'.tenures[t].leader) {
      var q :| Quorum(s, q, t, s.tenures[t].leader);
      assert Quorum(s', q, t, s'.tenures[t].leader);
    }
  }

  // ---------------------------------------------------------------------------
  // Whole runs
  // ---------------------------------------------------------------------------

  lemma {:induction false} ElectionRun(run: seq<System>, steps: seq<Step>, k: nat)
    requires Run(run, steps) && k < |run|
    ensures ElectionInv(run[k])
  {
    if k == 0 {
      assert run[0].tenures == map[];
    } else {
      ElectionRun(run, steps, k - 1);
      ElectionNext(run[k - 1], run[k], steps[k - 1]);
    }
  }

  lemma TenurePersistsOnce(run: seq<System>, steps: seq<Step>, k: nat, t: int)
    requires Run(run, steps) && k + 1 < |run| && t in run[k].tenures
    ensures t in run[k + 1].tenures && run[k + 1].tenures[t].leader == run[k].tenures[t].leader
  {
    ElectionRun(run, steps, k);
    ElectionNext(run[k], run[k + 1], steps[k]);
  }

  lemma {:induction false} TenuresPersist(run: seq<System>, steps: seq<Step>, i: nat, j: nat, t: int)
    requires Run(run, steps) && i <= j < |run| && t in run[i].tenures
    ensures t in run[j].tenures && run[j].tenures[t].leader == run[i].tenures[t].leader
    decreases j - i
  {
    if i < j {
      TenuresPersist(run, steps, i, j - 1, t);
      TenurePersistsOnce(run, steps, j - 1, t);
    }
  }

  /** No two nodes ever lead the same term, however far apart in the run, and whatever crashed in between. */
  lemma ElectionSafety(run: seq<System>, steps: seq<Step>, i: nat, j: nat, a: Id, b: Id)
    requires Run(run, steps) && i <= j < |run|
    requires a in run[i].nodes && run[i].nodes[a].role == Leader
    requires b in run[j].nodes && run[j].nodes[b].role == Leader
    requires run[i].nodes[a].term == run[j].nodes[b].term
    ensures a == b
  {
    ElectionRun(run, steps, i);
    ElectionRun(run, steps, j);
    assert NodeInv(run[i], run[i].nodes[a]) && NodeInv(run[j], run[j].nodes[b]);
    TenuresPersist(run, steps, i, j, run[i].nodes[a].term);
  }

  /** What is on disk when a node answers: its term never falls, and a vote is never replaced within a term. */
  lemma StoredVoteIsKept(run: seq<System>, steps: seq<Step>, k: nat, n: Id)
    requires Run(run, steps) && k + 1 < |run| && n in run[k].nodes
    ensures n in run[k + 1].nodes
    ensures
      var before, after := run[k].nodes[n].disk.LoadMeta(), run[k + 1].nodes[n].disk.LoadMeta();
      && before.term <= after.term
      && (before.term == after.term && before.votedFor != "" ==> after.votedFor == before.votedFor)
  {
    ElectionRun(run, steps, k);
    ElectionRun(run, steps, k + 1);
    ElectionNext(run[k], run[k + 1], steps[k]);
    assert NodeInv(run[k], run[k].nodes[n]) && NodeInv(run[k + 1], run[k + 1].nodes[n]);
    VotesOnlyGrow(run[k], run[k + 1], steps[k], n);
  }

  lemma VotesOnlyGrow(s: System, s': System, step: Step, n: Id)
    requires ElectionInv(s) && Next(s, s', step) && n in s.nodes
    ensures n in s'.nodes && s'.nodes[n].term >= s.nodes[n].term
    ensures s'.nodes[n].term == s.nodes[n].term && s.nodes[n].votedFor != "" ==> s'.nodes[n].votedFor == s.nodes[n].votedFor
  {
    if !step.LearnStep? && !step.LearnerRestartStep? {
      var e := NextIsRecord(s, s', step);
      StepLawful(s, step);
    }
  }
}
