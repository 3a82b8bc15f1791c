/**
 * Over every run, crashes included: whoever leads was voted for by a majority none of whose logs was, at the moment of the
 * vote, ahead of the log the candidate asked with (core/Raft.go:295-340, 759-769).
 */
module RaftVotes {
  import opened Common
  import opened RaftTypes
  import opened RaftNode
  import opened RaftSystem
  import opened RaftElection
  import opened RaftEffects

  /** The request has the candidate's term and tells the end of its log. */
  ghost predicate AsksWith(c: Core, p: Payload)
    requires p.RequestVote?
  {
    && p.term == c.term
    && p.prevLogIndex == (if c.log == [] then 0 else c.log[|c.log| - 1].index)
    && p.prevLogTerm == (if c.log == [] then 0 else c.log[|c.log| - 1].term)
  }

  /** In step `j` the candidate asked for votes with this request. */
  ghost predicate AskedAt(run: seq<System>, steps: seq<Step>, j: nat, p: Payload) {
    && j < |steps| && j + 1 < |run| && p.RequestVote?
    && steps[j] == ElectStep(p.candidateId) && p.candidateId in run[j + 1].nodes
    && AsksWith(run[j + 1].nodes[p.candidateId], p)
  }

  /** In step `i` node `v` gave its vote to a request it had got, and its log was not ahead of it. */
  ghost predicate VotedAt(run: seq<System>, steps: seq<Step>, i: nat, v: Id, p: Payload) {
    && i < |steps| && i < |run| && steps[i].VoteStep? && steps[i].node == v && steps[i].packet.payload == p && p.RequestVote?
    && v in run[i].nodes && !EndsBeyond(run[i].nodes[v].log, p.prevLogIndex, p.prevLogTerm)
  }

  ghost predicate Earned(run: seq<System>, steps: seq<Step>, k: nat, v: Id, term: int, candidate: Id) {
    || v == candidate
    || exists i: nat, j: nat, p: Payload :: j < i < k && p.RequestVote? && p.term == term && p.candidateId == candidate
         && VotedAt(run, steps, i, v, p) && AskedAt(run, steps, j, p)
  }

  ghost predicate Asked(run: seq<System>, steps: seq<Step>, k: nat, p: Payload) {
    exists j: nat :: j < k && AskedAt(run, steps, j, p)
  }

  // ---------------------------------------------------------------------------
  // One step
  // ---------------------------------------------------------------------------

  /** A new vote on record is a candidate's own, or one just given to a request. */
  ghost predicate GivenNow(s: System, step: Step, v: Id, term: int, candidate: Id) {
    || v == candidate
    || (&& step.VoteStep? && step.node == v && step.packet in s.net && v in s.nodes
        && step.packet.payload.RequestVote? && step.packet.payload.term == term
        && step.packet.payload.candidateId == candidate && HandleRequestVote(s.nodes[v], step.packet.payload).1)
  }

  lemma OthersKeepVotes(s: System, c: Core, step: Step)
    requires step.ProposeStep? || step.SendStep? || step.HeartbeatStep? || step.CrashStep?
    requires Persisted(c) && EffectOf(s, c, step).Some?
    ensures
      var c' := EffectOf(s, c, step).value.core;
      c'.votedFor == "" || (c'.term == c.term && c'.votedFor == c.votedFor)
  {
  }

  /** What term and vote are after a step, if they changed. */
  lemma VoteChanges(s: System, step: Step)
    requires ElectionInv(s) && !step.LearnStep? && !step.LearnerRestartStep?
    requires step.node in s.nodes && EffectOf(s, s.nodes[step.node], step).Some?
    ensures
      var c, c' := s.nodes[step.node], EffectOf(s, s.nodes[step.node], step).value.core;
      || c'.votedFor == "" || (c'.term == c.term && c'.votedFor == c.votedFor)
      || GivenNow(s, step, c.id, c'.term, c'.votedFor)
  {
    var c := s.nodes[step.node];
    assert NodeInv(s, c);
    match step {
      case ElectStep(_) => ElectionAsksEveryone(c, s.peers);
      case VoteStep(_, pkt) => VoteGrantedIff(c, pkt.payload);
      case VoteReplyStep(_, pkt) => HandleRequestVoteResponseEffect(c, pkt.payload, s.peers);
      case AppendStep(_, pkt) => HandleAppendEntriesEffect(c, pkt.payload);
      case AppendReplyStep(_, pkt) => HandleAppendEntriesResponseEffect(c, pkt.src, pkt.payload, s.peers);
      case _ => OthersKeepVotes(s, c, step);
    }
  }

  lemma NewVote(s: System, s': System, step: Step, v: Id, term: int, candidate: Id)
    requires ElectionInv(s) && Next(s, s', step) && Voted(s', v, term, candidate) && !Voted(s, v, term, candidate)
    ensures GivenNow(s, step, v, term, candidate)
  {
    if !step.LearnStep? && !step.LearnerRestartStep? {
      var e := NextIsRecord(s, s', step);
      var c := s.nodes[step.node];
      assert NodeInv(s, c);
      StepLawful(s, step);
      VoteChanges(s, step);
    }
  }

  /** Only an election sends requests for votes. */
  lemma OthersDoNotAsk(s: System, c: Core, step: Step, p: Packet)
    requires !step.LearnStep? && !step.LearnerRestartStep? && !step.ElectStep?
    requires EffectOf(s, c, step).Some? && p in EffectOf(s, c, step).value.sent
    ensures !p.payload.RequestVote?
  {
  }

  lemma ElectionSends(s: System, c: Core, step: Step, p: Packet)
    requires step.ElectStep? && EffectOf(s, c, step).Some? && p in EffectOf(s, c, step).value.sent
    ensures p.payload.RequestVote? && p.payload.candidateId == c.id && AsksWith(EffectOf(s, c, step).value.core, p.payload)
    ensures EffectOf(s, c, step).value.core.id == c.id
  {
    ElectionAsksEveryone(c, s.peers);
  }

  /** A new request for votes is sent in an election, with the end of the candidate's log. */
  lemma NewRequest(s: System, s': System, step: Step, p: Packet)
    requires ElectionInv(s) && Next(s, s', step) && p in s'.net && p !in s.net && p.payload.RequestVote?
    ensures step == ElectStep(p.payload.candidateId) && p.payload.candidateId in s'.nodes
    ensures AsksWith(s'.nodes[p.payload.candidateId], p.payload)
  {
    var e := NextIsRecord(s, s', step);
    var c := s.nodes[step.node];
    assert NodeInv(s, c);
    if step.ElectStep? {
      ElectionSends(s, c, step, p);
    } else {
      OthersDoNotAsk(s, c, step, p);
      assert false;
    }
  }

  // ---------------------------------------------------------------------------
  // Whole runs
  // ---------------------------------------------------------------------------

  lemma {:induction false} RequestsAsked(run: seq<System>, steps: seq<Step>, k: nat, p: Packet)
    requires Run(run, steps) && k < |run| && p in run[k].net && p.payload.RequestVote?
    ensures Asked(run, steps, k, p.payload)
    decreases k
  {
    if k > 0 {
      if p in run[k - 1].net {
        RequestsAsked(run, steps, k - 1, p);
      } else {
        ElectionRun(run, steps, k - 1);
        NewRequest(run[k - 1], run[k], steps[k - 1], p);
        assert AskedAt(run, steps, k - 1, p.payload);
      }
    }
  }

  lemma {:induction false} VotesEarned(run: seq<System>, steps: seq<Step>, k: nat, v: Id, term: int, candidate: Id)
    requires Run(run, steps) && k < |run| && Voted(run[k], v, term, candidate)
    ensures Earned(run, steps, k, v, term, candidate)
    decreases k
  {
    if k > 0 {
      if Voted(run[k - 1], v, term, candidate) {
        VotesEarned(run, steps, k - 1, v, term, candidate);
      } else {
        ElectionRun(run, steps, k - 1);
        NewVote(run[k - 1], run[k], steps[k - 1], v, term, candidate);
        if v != candidate {
          VoteEarnedNow(run, steps, k, v);
        }
      }
    }
  }

  lemma VoteEarnedNow(run: seq<System>, steps: seq<Step>, k: nat, v: Id)
    requires Run(run, steps) && 0 < k < |run| && steps[k - 1].VoteStep? && steps[k - 1].node == v
    requires steps[k - 1].packet in run[k - 1].net && v in run[k - 1].nodes && steps[k - 1].packet.payload.RequestVote?
    requires HandleRequestVote(run[k - 1].nodes[v], steps[k - 1].packet.payload).1
    ensures
      var p := steps[k - 1].packet.payload;
      Earned(run, steps, k, v, p.term, p.candidateId)
  {
    var i, pkt := k - 1, steps[k - 1].packet;
    VoteGrantedIff(run[i].nodes[v], pkt.payload);
    RequestsAsked(run, steps, i, pkt);
    var j: nat :| j < i && AskedAt(run, steps, j, pkt.payload);
    assert VotedAt(run, steps, i, v, pkt.payload);
  }

  /**
   * A leader has a majority of votes, and each of them but its own was given in some earlier step by a node whose log was
   * then not ahead of the log the leader had when, earlier still, it asked.
   */
  lemma LeaderWasNotBehind(run: seq<System>, steps: seq<Step>, k: nat, n: Id) returns (q: set<Id>)
    requires Run(run, steps) && k < |run| && n in run[k].nodes && run[k].nodes[n].role == Leader
    ensures q <= PeerSet(run[k].peers) && 2 * |q| > |run[k].peers|
    ensures forall v :: v in q ==> Earned(run, steps, k, v, run[k].nodes[n].term, n)
  {
    var s := run[k];
    ElectionRun(run, steps, k);
    assert NodeInv(s, s.nodes[n]);
    q :| Quorum(s, q, s.nodes[n].term, n);
    forall v | v in q ensures Earned(run, steps, k, v, s.nodes[n].term, n) {
      VotesEarned(run, steps, k, v, s.nodes[n].term, n);
    }
  }
}
