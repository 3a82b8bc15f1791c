/**
 * What votes, replies and commits change at a core node, told from its fields before and after and from the messages
 * (core/Raft.go): when a vote is given, who becomes leader, where the commit index and the next indexes go.
 */
module RaftEffects {
  import opened Common
  import opened RaftTypes
  import opened RaftLog
  import opened RaftNode
  import opened Selection

  // ---------------------------------------------------------------------------
  // Votes
  // ---------------------------------------------------------------------------

  /** The log ends in a later term, or in that term at a later index; an empty log ends in term 0 at index 0. */
  ghost predicate EndsBeyond(log: Log, index: int, term: int) {
    if log == [] then term < 0 || (term == 0 && index < 0)
    else
      var last := log[|log| - 1];
      last.term > term || (last.term == term && last.index > index)
  }

  /** A vote is given exactly for a term not yet over, if it is still free, to a candidate whose log is not behind. */
  lemma VoteGrantedIff(c: Core, p: Payload)
    requires p.RequestVote?
    ensures
      var (r, granted) := HandleRequestVote(c, p);
      && (granted <==>
            && p.term >= c.term
            && (p.term > c.term || c.votedFor == "" || c.votedFor == p.candidateId)
            && !EndsBeyond(c.log, p.prevLogIndex, p.prevLogTerm))
      && r.term == Max(c.term, p.term)
      && r.votedFor == (if granted then p.candidateId else if p.term > c.term then "" else c.votedFor)
      && r.role == (if p.term > c.term then Follower else c.role)
      && r.disk.meta == (if p.term > c.term || granted then Some(Meta(r.term, r.votedFor, c.commitIndex, c.lastApplied))
                         else c.disk.meta)
      && r == c.(term := r.term, votedFor := r.votedFor, role := r.role, disk := c.disk.(meta := r.disk.meta))
  {
  }

  /** An empty log is never ahead of what a candidate can say. */
  lemma EmptyLogVotes(c: Core, p: Payload)
    requires p.RequestVote? && c.log == [] && p.prevLogIndex >= 0 && p.prevLogTerm >= 0
    ensures HandleRequestVote(c, p).1 <==>
              p.term > c.term || (p.term == c.term && (c.votedFor == "" || c.votedFor == p.candidateId))
  {
    VoteGrantedIff(c, p);
  }

  /** The requests of a new candidate: one to every other peer, with its new term and the end of its log. */
  lemma ElectionAsksEveryone(c: Core, peers: seq<Id>)
    requires c.role != Leader
    ensures
      var r := StartElection(c);
      && r.role == Candidate && r.term == c.term + 1 && r.votedFor == c.id && r.votes == map[c.id := true]
      && r.log == c.log && r.disk == c.disk.(meta := Some(Meta(c.term + 1, c.id, c.commitIndex, c.lastApplied)))
      && (forall pkt :: pkt in VoteRequests(r, peers) <==>
            && pkt.src == c.id && pkt.dst in peers && pkt.dst != c.id && pkt.payload.RequestVote?
            && pkt.payload.term == c.term + 1 && pkt.payload.candidateId == c.id
            && pkt.payload.prevLogIndex == (if c.log == [] then 0 else c.log[|c.log| - 1].index)
            && pkt.payload.prevLogTerm == (if c.log == [] then 0 else c.log[|c.log| - 1].term))
  {
    RequestsAre(StartElection(c), peers);
  }

  lemma {:induction false} RequestsAre(c: Core, peers: seq<Id>)
    ensures forall pkt :: pkt in VoteRequests(c, peers) <==>
              && pkt.src == c.id && pkt.dst in peers && pkt.dst != c.id
              && pkt.payload == RequestVote(c.term, c.id, LastIndex(c.log), LastTerm(c.log))
    decreases |peers|
  {
    if peers != [] {
      RequestsAre(c, peers[1..]);
      assert peers == [peers[0]] + peers[1..];
    }
  }

  ghost predicate Others(c: Core, peers: seq<Id>, x: Id) {
    x != c.id && (x in peers || x in c.learners)
  }

  lemma MajorityIsMoreThanHalf(votes: map<Id, bool>, peers: seq<Id>)
    ensures HasMajorityVotes(votes, peers) <==> 2 * |set v | v in votes && votes[v]| > |peers|
  {
    assert Granted(votes) == set v | v in votes && votes[v];
  }

  lemma TrackedIffOther(c: Core, peers: seq<Id>, x: Id)
    ensures x in Tracked(c, peers) <==> Others(c, peers, x)
  {
    if x in peers {
      var i :| 0 <= i < |peers| && peers[i] == x;
    }
  }

  /** A new leader starts to track every other peer and learner at the end of its log, and nothing else changes. */
  lemma NewLeaderTracks(c: Core, peers: seq<Id>)
    ensures
      var r := SwitchToLeader(c, peers);
      && r == c.(role := Leader, nextIndex := r.nextIndex, matchIndex := r.matchIndex)
      && (forall x :: Others(c, peers, x) ==>
            && x in r.nextIndex && r.nextIndex[x] == (if c.log == [] then 1 else c.log[|c.log| - 1].index + 1)
            && x in r.matchIndex && r.matchIndex[x] == 0)
      && (forall x :: !Others(c, peers, x) ==> SameAt(r.nextIndex, c.nextIndex, x) && SameAt(r.matchIndex, c.matchIndex, x))
  {
    forall x ensures x in Tracked(c, peers) <==> Others(c, peers, x) {
      TrackedIffOther(c, peers, x);
    }
  }

  /** A reply of the candidate's term is counted, and makes it leader exactly when more than half of the peers granted. */
  lemma ReplyElectsIff(c: Core, p: Payload, peers: seq<Id>)
    requires p.RequestVoteResponse? && p.term == c.term
    ensures
      var r, votes := HandleRequestVoteResponse(c, p, peers), c.votes[p.senderId := p.voteGranted];
      var elected := c.role == Candidate && 2 * |set v | v in votes && votes[v]| > |peers|;
      && r.votes == votes && (r.role == if elected then Leader else c.role)
      && r == (if elected then SwitchToLeader(c.(votes := votes), peers) else c.(votes := votes))
  {
    MajorityIsMoreThanHalf(c.votes[p.senderId := p.voteGranted], peers);
  }

  /** A reply of another term is not counted; a later term ends the candidacy, or the lead. */
  lemma OtherTermIsNotCounted(c: Core, p: Payload, peers: seq<Id>)
    requires p.RequestVoteResponse? && p.term != c.term
    ensures
      var r := HandleRequestVoteResponse(c, p, peers);
      && (p.term < c.term ==> r == c)
      && (p.term > c.term ==>
            r == c.(term := p.term, role := Follower, votedFor := "",
                    disk := c.disk.(meta := Some(Meta(p.term, "", c.commitIndex, c.lastApplied)))))
  {
  }

  // ---------------------------------------------------------------------------
  // Learners
  // ---------------------------------------------------------------------------

  ghost predicate ChangesLearner(cmd: Command, x: Id) {
    (cmd.op == AddLearner || cmd.op == AddLearnerWithSnapshot || cmd.op == RemoveLearner) && cmd.key == x
  }

  ghost predicate LearnerUntouched(log: Log, a: int, b: int, x: Id) {
    forall i :: 0 <= a <= i < b && i < |log| ==> !ChangesLearner(log[i].command, x)
  }

  lemma TurnLeavesLearner(c: Core, x: Id)
    requires 0 <= c.lastApplied < |c.log| && !ChangesLearner(c.log[c.lastApplied].command, x)
    ensures
      var r := ApplyNext(c);
      && (x in r.learners <==> x in c.learners)
      && SameAt(r.nextIndex, c.nextIndex, x) && SameAt(r.matchIndex, c.matchIndex, x)
      && r.log == c.log && r.commitIndex == c.commitIndex && r.lastApplied == c.lastApplied + 1
  {
  }

  lemma {:induction false} UntouchedLearnerStays(c: Core, x: Id)
    requires 0 <= c.lastApplied && c.commitIndex <= |c.log| && LearnerUntouched(c.log, c.lastApplied, c.commitIndex, x)
    ensures
      var r := Apply(c);
      && (x in r.learners <==> x in c.learners)
      && SameAt(r.nextIndex, c.nextIndex, x) && SameAt(r.matchIndex, c.matchIndex, x)
    decreases c.commitIndex - c.lastApplied
  {
    if c.lastApplied < c.commitIndex {
      TurnLeavesLearner(c, x);
      UntouchedLearnerStays(ApplyNext(c), x);
    }
  }

  /** A learner added is sent entries from right behind the commit index, or behind its snapshot; one removed is sent none. */
  ghost predicate LearnerIs(r: Core, cmd: Command, ci: int) {
    var x := cmd.key;
    && (x in r.learners <==> cmd.op != RemoveLearner)
    && (x in r.nextIndex <==> cmd.op != RemoveLearner) && (x in r.matchIndex <==> cmd.op != RemoveLearner)
    && (cmd.op == AddLearner ==> r.nextIndex[x] == ci + 1 && r.matchIndex[x] == 0)
    && (cmd.op == AddLearnerWithSnapshot ==>
          r.nextIndex[x] == cmd.snapshotIndex + 1 && r.matchIndex[x] == cmd.snapshotIndex)
  }

  /** The last committed command about a learner decides whether and from where it is sent entries. */
  lemma {:induction false} LastCommandDecides(c: Core, x: Id, i: nat)
    requires 0 <= c.lastApplied <= i < c.commitIndex <= |c.log|
    requires ChangesLearner(c.log[i].command, x) && LearnerUntouched(c.log, i + 1, c.commitIndex, x)
    ensures LearnerIs(Apply(c), c.log[i].command, c.commitIndex)
    decreases c.commitIndex - c.lastApplied
  {
    if c.lastApplied < i {
      LastCommandDecides(ApplyNext(c), x, i);
    } else {
      UntouchedLearnerStays(ApplyNext(c), x);
    }
  }

  /** What is told of learner `x` afterwards: what the last command about it says, or what was told before. */
  ghost predicate TracksAsTold(c: Core, r: Core, ci: int, x: Id)
    requires 0 <= c.lastApplied && ci <= |c.log|
  {
    && (LearnerUntouched(c.log, c.lastApplied, ci, x) ==>
          (x in r.learners <==> x in c.learners)
          && SameAt(r.nextIndex, c.nextIndex, x) && SameAt(r.matchIndex, c.matchIndex, x))
    && forall i: nat :: c.lastApplied <= i < ci && ChangesLearner(c.log[i].command, x)
                        && LearnerUntouched(c.log, i + 1, ci, x) ==>
         LearnerIs(r, c.log[i].command, ci)
  }

  lemma TracksAreInFields(c: Core, r: Core, r': Core, ci: int, x: Id)
    requires 0 <= c.lastApplied && ci <= |c.log| && TracksAsTold(c, r, ci, x)
    requires r'.learners == r.learners && r'.nextIndex == r.nextIndex && r'.matchIndex == r.matchIndex
    ensures TracksAsTold(c, r', ci, x)
  {
  }

  lemma SameTracks(c1: Core, c: Core, r: Core, ci: int, x: Id)
    requires 0 <= c.lastApplied && ci <= |c.log| && c1 == c.(commitIndex := c1.commitIndex)
    requires TracksAsTold(c1, r, ci, x)
    ensures TracksAsTold(c, r, ci, x)
  {
  }

  lemma ApplyTracks(c: Core, x: Id)
    requires 0 <= c.lastApplied && c.commitIndex <= |c.log|
    ensures TracksAsTold(c, Apply(c), c.commitIndex, x)
  {
    var ci := c.commitIndex;
    if LearnerUntouched(c.log, c.lastApplied, ci, x) {
      UntouchedLearnerStays(c, x);
    }
    forall i: nat | c.lastApplied <= i < ci && ChangesLearner(c.log[i].command, x) && LearnerUntouched(c.log, i + 1, ci, x)
      ensures LearnerIs(Apply(c), c.log[i].command, ci)
    {
      LastCommandDecides(c, x, i);
    }
  }

  // ---------------------------------------------------------------------------
  // Committing
  // ---------------------------------------------------------------------------

  /** The other peers that are known to have reached index `v`. */
  ghost function Backers(c: Core, peers: seq<Id>, v: int): set<Id> {
    set p | p in peers && p != c.id && p in c.matchIndex && c.matchIndex[p] >= v
  }

  ghost function Followed(c: Core, peers: seq<Id>): set<Id> {
    set p | p in peers && p != c.id && p in c.matchIndex
  }

  ghost function End(log: Log): int {
    if log == [] then 0 else log[|log| - 1].index
  }

  /** How many nodes have reached index `v`, the leader itself included. */
  ghost function HaveReached(c: Core, peers: seq<Id>, v: int): nat {
    |Backers(c, peers, v)| + if End(c.log) >= v then 1 else 0
  }

  lemma {:induction false} PeerIndexesCount(c: Core, peers: seq<Id>, v: int)
    requires Distinct(peers)
    ensures |PeerIndexes(c, peers)| == |Followed(c, peers)|
    ensures CountAtLeast(PeerIndexes(c, peers), v) == |Backers(c, peers, v)|
    decreases |peers|
  {
    if peers == [] {
      assert Followed(c, peers) == {} && Backers(c, peers, v) == {};
    } else {
      var front, p := peers[..|peers| - 1], peers[|peers| - 1];
      var one := if p != c.id && p in c.matchIndex then [c.matchIndex[p]] else [];
      PeerIndexesCount(c, front, v);
      CountBelowAppend(PeerIndexes(c, front), one, v);
      LastPeer(c, peers, v);
    }
  }

  lemma LastPeer(c: Core, peers: seq<Id>, v: int)
    requires Distinct(peers) && peers != []
    ensures
      var front, p := peers[..|peers| - 1], peers[|peers| - 1];
      var counts := p != c.id && p in c.matchIndex;
      && |Followed(c, peers)| == |Followed(c, front)| + (if counts then 1 else 0)
      && |Backers(c, peers, v)| == |Backers(c, front, v)| + if counts && c.matchIndex[p] >= v then 1 else 0
  {
    var front, p := peers[..|peers| - 1], peers[|peers| - 1];
    LastIsNew(peers);
    var counts := p != c.id && p in c.matchIndex;
    OneMore(Followed(c, peers), Followed(c, front), p, counts);
    OneMore(Backers(c, peers, v), Backers(c, front, v), p, counts && c.matchIndex[p] >= v);
  }

  lemma OneMore(all: set<Id>, front: set<Id>, p: Id, counts: bool)
    requires p !in front && forall x :: x in all <==> x in front || (counts && x == p)
    ensures |all| == |front| + if counts then 1 else 0
  {
    assert all == front + if counts then {p} else {};
  }

  lemma LastIsNew(peers: seq<Id>)
    requires Distinct(peers) && peers != []
    ensures
      var front, p := peers[..|peers| - 1], peers[|peers| - 1];
      Distinct(front) && p !in front && forall x :: x in peers <==> x in front || x == p
  {
    assert peers == peers[..|peers| - 1] + [peers[|peers| - 1]];
  }

  lemma IndexesCount(c: Core, peers: seq<Id>, v: int)
    requires Distinct(peers)
    ensures |MatchIndexes(c, peers)| == 1 + |Followed(c, peers)|
    ensures CountAtLeast(MatchIndexes(c, peers), v) == HaveReached(c, peers, v)
  {
    PeerIndexesCount(c, peers, v);
    CountBelowAppend([LastIndex(c.log)], PeerIndexes(c, peers), v);
  }

  /** At least half of the nodes, the leader and those it tracks, have reached `m`, and fewer have reached `m + 1`. */
  ghost predicate ReachedByHalf(c: Core, peers: seq<Id>, m: int) {
    && 2 * HaveReached(c, peers, m) >= 1 + |Followed(c, peers)|
    && 2 * HaveReached(c, peers, m + 1) < 1 + |Followed(c, peers)|
  }

  lemma KthIsReachedByHalf(c: Core, peers: seq<Id>, m: int)
    requires Distinct(peers)
    ensures
      var indexes := MatchIndexes(c, peers);
      ReachedByHalf(c, peers, m) <==> m == Kth(indexes, |indexes| / 2)
  {
    var indexes := MatchIndexes(c, peers);
    var n := Kth(indexes, |indexes| / 2);
    IndexesCount(c, peers, m);
    IndexesCount(c, peers, m + 1);
    if m < n {
      CountBelowMonotone(indexes, m + 1, n);
    } else if m > n {
      CountBelowMonotone(indexes, n + 1, m);
    }
  }

  /** There is exactly one such index. */
  lemma ReachedByHalfExists(c: Core, peers: seq<Id>) returns (m: int)
    requires Distinct(peers)
    ensures ReachedByHalf(c, peers, m) && forall x :: ReachedByHalf(c, peers, x) ==> x == m
  {
    m := Kth(MatchIndexes(c, peers), |MatchIndexes(c, peers)| / 2);
    KthIsReachedByHalf(c, peers, m);
    forall x | ReachedByHalf(c, peers, x) ensures x == m {
      KthIsReachedByHalf(c, peers, x);
    }
  }

  /** `r` is `c` with the entries up to `ci` applied and its commit index there. */
  ghost predicate CommittedTo(c: Core, r: Core, ci: int)
    requires 0 <= c.lastApplied && ci <= |c.log|
  {
    && r.commitIndex == ci && r.lastApplied == Max(c.lastApplied, ci)
    && r.disk.state == (if c.lastApplied < ci then ApplyEntries(c.disk.state, c.log[c.lastApplied..ci]) else c.disk.state)
    && r.disk.logs == c.disk.logs && (forall x :: TracksAsTold(c, r, ci, x))
    && r == c.(commitIndex := ci, lastApplied := r.lastApplied, nextIndex := r.nextIndex, matchIndex := r.matchIndex,
               learners := r.learners, disk := r.disk)
  }

  lemma ApplyCommits(c: Core, ci: int)
    requires 0 <= c.lastApplied && ci <= |c.log|
    ensures CommittedTo(c, Apply(c.(commitIndex := ci)), ci)
  {
    var c1 := c.(commitIndex := ci);
    if c.lastApplied < ci {
      ApplyRunsEntries(c1);
    }
    forall x ensures TracksAsTold(c, Apply(c1), ci, x) {
      ApplyTracks(c1, x);
      SameTracks(c1, c, Apply(c1), ci, x);
    }
  }

  /**
   * The leader commits whenever it can: with `m` the highest index that half of the nodes have reached, its commit index
   * becomes `m` if that is higher, inside its log, and the entry there is of its term. Otherwise nothing changes at all, or
   * `m` is beyond the log and the access to it panics.
   */
  ghost predicate Advanced(c: Core, r: Option<Core>, m: int)
    requires c.lastApplied >= 0
  {
    if m <= Max(c.commitIndex, 0) then r == Some(c)
    else if m > |c.log| then r == None
    else if c.log[m - 1].term != c.term then r == Some(c)
    else
      && r.Some? && CommittedTo(c, r.value, m)
      && r.value.disk.meta == (if c.lastApplied < m then Some(Meta(c.term, c.votedFor, m, m)) else c.disk.meta)
  }

  lemma LeaderCommitsIff(c: Core, peers: seq<Id>, m: int)
    requires c.lastApplied >= 0 && Distinct(peers) && ReachedByHalf(c, peers, m)
    ensures Advanced(c, AdvanceCommitIndex(c, peers), m)
  {
    KthIsReachedByHalf(c, peers, m);
    if Max(c.commitIndex, 0) < m <= |c.log| && c.log[m - 1].term == c.term {
      ApplyCommits(c, m);
      if c.lastApplied < m {
        AppliedMeta(c.(commitIndex := m));
      }
    }
  }

  lemma {:induction false} AppliedMeta(c: Core)
    requires 0 <= c.lastApplied < c.commitIndex <= |c.log|
    ensures Apply(c).disk.meta == Some(Meta(c.term, c.votedFor, c.commitIndex, c.commitIndex))
    decreases c.commitIndex - c.lastApplied
  {
    if c.lastApplied + 1 < c.commitIndex {
      AppliedMeta(ApplyNext(c));
    }
  }

  /** What a follower does with the commit index of a message. */
  lemma FollowerCommitsIff(c: Core, leaderCommit: int)
    requires c.lastApplied >= 0
    ensures
      var r, ci := FollowCommit(c, leaderCommit), Min(leaderCommit, |c.log|);
      if leaderCommit <= c.commitIndex then r == c
      else CommittedTo(c, r, ci) && r.disk.meta == Some(Meta(c.term, c.votedFor, ci, r.lastApplied))
  {
    var ci := Min(leaderCommit, |c.log|);
    if leaderCommit > c.commitIndex {
      ApplyCommits(c, ci);
      forall x ensures TracksAsTold(c, FollowCommit(c, leaderCommit), ci, x) {
        TracksAreInFields(c, Apply(c.(commitIndex := ci)), FollowCommit(c, leaderCommit), ci, x);
      }
    }
  }

  /** The store of a core node after applying, key by key: the last committed write decides. */
  lemma AppliedStateIs(c: Core)
    requires 0 <= c.lastApplied <= c.commitIndex <= |c.log|
    ensures IsResult(c.disk.state, c.log[c.lastApplied..c.commitIndex], Apply(c).disk.state)
  {
    ApplyRunsEntries(c);
    AppliedIffResult(c.disk.state, c.log[c.lastApplied..c.commitIndex], Apply(c).disk.state);
  }

  // ---------------------------------------------------------------------------
  // Replies, and what is sent next
  // ---------------------------------------------------------------------------

  /** `i` is the position of the last entry of the term, -1 if it has none. */
  ghost predicate LastOfTerm(log: Log, term: int, i: int) {
    && -1 <= i < |log|
    && (i >= 0 ==> log[i].term == term)
    && forall j :: i < j < |log| ==> log[j].term != term
  }

  lemma {:induction false} FindLastIs(log: Log, term: int, i: int)
    requires WellIndexed(log) && LastOfTerm(log, term, i)
    ensures FindLastIndexOfTerm(log, term) == i + 1
    decreases |log|
  {
    if log != [] && log[|log| - 1].term != term {
      FindLastIs(log[..|log| - 1], term, i);
    } else if log != [] {
      assert i == |log| - 1;
    }
  }

  /**
   * A refusal that names a conflicting term moves the next index right behind the leader's last entry of that term, or to
   * the reported index if it has none; one that names no term moves it one back, but not below 1.
   */
  lemma RefusalMovesNext(c: Core, src: Id, p: Payload, peers: seq<Id>, i: int)
    requires c.lastApplied >= 0 && WellIndexed(c.log) && c.role == Leader
    requires p.AppendEntriesResponse? && p.term == c.term && !p.success && LastOfTerm(c.log, p.conflictTerm, i)
    ensures
      var r := HandleAppendEntriesResponse(c, src, p, peers);
      var next := if src in c.nextIndex then c.nextIndex[src] else 0;
      && r.Some? && r.value == c.(nextIndex := r.value.nextIndex)
      && (forall x :: x != src ==> SameAt(r.value.nextIndex, c.nextIndex, x))
      && (p.conflictTerm != 0 ==>
            src in r.value.nextIndex && r.value.nextIndex[src] == if i >= 0 then i + 2 else p.conflictIndex)
      && (p.conflictTerm == 0 && next > 1 ==> src in r.value.nextIndex && r.value.nextIndex[src] == next - 1)
      && (p.conflictTerm == 0 && next <= 1 ==> r.value == c)
  {
    FindLastIs(c.log, p.conflictTerm, i);
  }

  lemma LastOfTermExists(log: Log, term: int) returns (i: int)
    ensures LastOfTerm(log, term, i)
    decreases |log|
  {
    if log == [] {
      i := -1;
    } else if log[|log| - 1].term == term {
      i := |log| - 1;
    } else {
      i := LastOfTermExists(log[..|log| - 1], term);
    }
  }

  /** A success reply is taken for what its sender has: the index it reports, or else all that was sent. */
  ghost function Recorded(c: Core, src: Id, p: Payload): Core
    requires p.AppendEntriesResponse?
  {
    var has := if p.commitIndex > 0 then p.commitIndex else (if src in c.nextIndex then c.nextIndex[src] else 0) - 1;
    c.(matchIndex := c.matchIndex[src := has], nextIndex := c.nextIndex[src := has + 1])
  }

  /** It is recorded, and the leader then commits what it can. */
  lemma SuccessIsRecorded(c: Core, src: Id, p: Payload, peers: seq<Id>, m: int)
    requires c.lastApplied >= 0 && c.role == Leader && Distinct(peers)
    requires p.AppendEntriesResponse? && p.term == c.term && p.success
    requires ReachedByHalf(Recorded(c, src, p), peers, m)
    ensures Advanced(Recorded(c, src, p), HandleAppendEntriesResponse(c, src, p, peers), m)
  {
    RecordedFirst(c, src, p, peers);
    LeaderCommitsIff(Recorded(c, src, p), peers, m);
  }

  lemma RecordedFirst(c: Core, src: Id, p: Payload, peers: seq<Id>)
    requires c.lastApplied >= 0 && c.role == Leader && p.AppendEntriesResponse? && p.term == c.term && p.success
    ensures HandleAppendEntriesResponse(c, src, p, peers) == AdvanceCommitIndex(Recorded(c, src, p), peers)
  {
  }

  /** Replies of other terms, or to another than a leader, are not taken in; a later term ends the lead. */
  lemma OtherRepliesAreDropped(c: Core, src: Id, p: Payload, peers: seq<Id>)
    requires c.lastApplied >= 0 && p.AppendEntriesResponse? && (p.term != c.term || c.role != Leader)
    ensures
      var r := HandleAppendEntriesResponse(c, src, p, peers);
      && r.Some?
      && r.value == if p.term <= c.term then c
                    else c.(term := p.term, role := Follower, votedFor := "",
                            disk := c.disk.(meta := Some(Meta(p.term, "", c.commitIndex, c.lastApplied))))
  {
  }

  /** What a leader sends: everything from the next index on, what comes before it, and how far it has committed. */
  lemma SendCarries(c: Core, dst: Id)
    ensures
      var next := if dst in c.nextIndex then c.nextIndex[dst] else 0;
      match SendAppendEntriesTo(c, dst)
      case None => next < 1 || next > |c.log| + 1
      case Some(p) =>
        && 1 <= next <= |c.log| + 1 && p.AppendEntries? && p.term == c.term && p.leaderId == c.id
        && p.leaderCommit == c.commitIndex && p.prevLogIndex == next - 1
        && p.prevLogTerm == (if next > 1 then c.log[next - 2].term else 0)
        && |p.entries| == |c.log| + 1 - next
        && forall i :: 0 <= i < |p.entries| ==> p.entries[i] == c.log[next - 1 + i]
  {
  }

  lemma HeartbeatCarries(c: Core, dst: Id, term: int, commitIndex: int)
    ensures
      var next := if dst in c.nextIndex then c.nextIndex[dst] else 0;
      var p := SendHeartbeat(c, dst, term, commitIndex);
      && p.AppendEntries? && p.term == term && p.leaderId == c.id && p.entries == [] && p.leaderCommit == commitIndex
      && p.prevLogIndex == next - 1
      && p.prevLogTerm == if 1 < next <= |c.log| + 1 then c.log[next - 2].term else 0
  {
  }

  /** A leader appends one entry of its term behind its log, in memory and on disk; any other node does nothing. */
  lemma ProposeAppends(c: Core, cmd: Command)
    requires WellIndexed(c.log)
    ensures
      var r := ProposeCommand(c, cmd);
      && (c.role != Leader ==> r == c)
      && (c.role == Leader ==>
            && WellIndexed(r.log) && |r.log| == |c.log| + 1 && c.log <= r.log
            && r.log[|c.log|].term == c.term && r.log[|c.log|].command == cmd
            && r.disk == c.disk.(logs := c.disk.logs[|c.log| + 1 := r.log[|c.log|]])
            && r == c.(log := r.log, disk := r.disk))
  {
  }

  // ---------------------------------------------------------------------------
  // Starting
  // ---------------------------------------------------------------------------

  /** A start takes term, vote and counters from the metadata and the log from the store, and applies what is committed. */
  lemma StartReadsDisk(id: Id, disk: Disk, n: nat)
    requires Dense(disk.logs, n)
    ensures
      var m, r := disk.LoadMeta(), Restart(id, disk);
      && (r == None <==> m.lastApplied < 0 || (m.lastApplied < m.commitIndex && m.commitIndex > n))
      && (r.Some? ==>
            && r.value.id == id && r.value.role == Follower && r.value.term == m.term && r.value.votedFor == m.votedFor
            && |r.value.log| == n && (forall i :: 0 <= i < n ==> r.value.log[i] == disk.logs[i + 1])
            && r.value.commitIndex == m.commitIndex && r.value.lastApplied == Max(m.lastApplied, m.commitIndex)
            && r.value.disk.logs == disk.logs
            && (m.commitIndex <= m.lastApplied ==> r.value.disk == disk && r.value.learners == {})
            && (m.lastApplied < m.commitIndex ==>
                  IsResult(disk.state, r.value.log[m.lastApplied..m.commitIndex], r.value.disk.state)))
  {
    var c := Booted(id, disk);
    LoadConsecutive(disk.logs, 1, n);
    if 0 <= c.lastApplied < c.commitIndex <= |c.log| {
      ApplyRunsEntries(c);
      AppliedStateIs(c);
    }
  }
}
