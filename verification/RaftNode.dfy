/** What each handler of a core node (core/Raft.go) does to the node's state, and what it sends. */
module RaftNode {
  import opened Common
  import opened RaftTypes
  import opened RaftLog
  import opened Selection

  datatype Role = Follower | Candidate | Leader

  datatype Core = Core(
    id: Id,
    role: Role,
    term: int,
    votedFor: Id,
    log: Log,
    commitIndex: int,
    lastApplied: int,
    nextIndex: map<Id, int>,
    matchIndex: map<Id, int>,
    votes: map<Id, bool>,
    leaderHint: Id,
    learners: set<Id>,
    disk: Disk)

  /** The stored term and vote are the ones in memory. */
  predicate Persisted(c: Core) {
    c.disk.LoadMeta().term == c.term && c.disk.LoadMeta().votedFor == c.votedFor
  }

  /** What log indexing relies on. */
  ghost predicate Shaped(c: Core) {
    WellIndexed(c.log) && c.lastApplied >= 0
  }

  function At(m: map<Id, int>, k: Id): int {
    if k in m then m[k] else 0
  }

  function SaveMeta(c: Core): Core {
    c.(disk := c.disk.(meta := Some(Meta(c.term, c.votedFor, c.commitIndex, c.lastApplied))))
  }

  function SwitchToFollower(c: Core, term: int): Core {
    SaveMeta(c.(term := term, role := Follower, votedFor := ""))
  }

  function SwitchToCandidate(c: Core): Core {
    SaveMeta(c.(role := Candidate, term := c.term + 1, votedFor := c.id)).(leaderHint := "")
  }

  /** Everyone a leader starts tracking: the other peers and the other learners. */
  function Tracked(c: Core, peers: seq<Id>): set<Id> {
    (set i | 0 <= i < |peers| :: peers[i]) + c.learners - {c.id}
  }

  function Track(m: map<Id, int>, keys: set<Id>, v: int): map<Id, int> {
    m + map k | k in keys :: v
  }

  lemma TrackOne(m: map<Id, int>, a: set<Id>, k: Id, v: int)
    ensures Track(m, a, v)[k := v] == Track(m, a + {k}, v)
  {
  }

  lemma TrackUnion(m: map<Id, int>, a: set<Id>, b: set<Id>, v: int)
    ensures Track(Track(m, a, v), b, v) == Track(m, a + b, v)
  {
  }

  /** The loop over the peers and then the one over the learners track everyone once. */
  lemma TrackBoth(c: Core, peers: seq<Id>, m: map<Id, int>, v: int)
    ensures
      var a, b := (set i | 0 <= i < |peers| :: peers[i]) - {c.id}, c.learners - {c.id};
      Track(Track(m, a, v), b, v) == Track(m, Tracked(c, peers), v)
  {
    var a, b := (set i | 0 <= i < |peers| :: peers[i]) - {c.id}, c.learners - {c.id};
    assert a + b == Tracked(c, peers);
    TrackUnion(m, a, b, v);
  }

  function SwitchToLeader(c: Core, peers: seq<Id>): Core {
    c.(role := Leader,
       nextIndex := Track(c.nextIndex, Tracked(c, peers), LastIndex(c.log) + 1),
       matchIndex := Track(c.matchIndex, Tracked(c, peers), 0))
  }

  // ---------------------------------------------------------------------------
  // Elections
  // ---------------------------------------------------------------------------

  function IsUpToDate(log: Log, lastLogIndex: int, lastLogTerm: int): bool {
    lastLogTerm > LastTerm(log) || (lastLogTerm == LastTerm(log) && lastLogIndex >= LastIndex(log))
  }

  function Granted(votes: map<Id, bool>): set<Id> {
    set v | v in votes && votes[v]
  }

  predicate HasMajorityVotes(votes: map<Id, bool>, peers: seq<Id>) {
    |Granted(votes)| >= |peers| / 2 + 1
  }

  function VoteRequests(c: Core, peers: seq<Id>): seq<Packet> {
    if peers == [] then []
    else
      (if peers[0] == c.id then []
       else [Packet(c.id, peers[0], RequestVote(c.term, c.id, LastIndex(c.log), LastTerm(c.log)))])
      + VoteRequests(c, peers[1..])
  }

  /** One turn of the loop that sends the requests. */
  lemma VoteRequestsTurn(c: Core, peers: seq<Id>, i: nat, sent: seq<Packet>)
    requires i < |peers|
    ensures
      sent + VoteRequests(c, peers[i..])
      == (if peers[i] == c.id then sent
          else sent + [Packet(c.id, peers[i], RequestVote(c.term, c.id, LastIndex(c.log), LastTerm(c.log)))])
         + VoteRequests(c, peers[i + 1..])
  {
    assert peers[i..][0] == peers[i] && peers[i..][1..] == peers[i + 1..];
  }

  /** `startElection` as one step: vote reset, new term and requests together. */
  function StartElection(c: Core): Core {
    if c.role == Leader then c else SwitchToCandidate(c.(votes := map[c.id := true]))
  }

  function HandleRequestVote(c: Core, p: Payload): (Core, bool)
    requires p.RequestVote?
  {
    if p.term < c.term then (c, false)
    else
      var c1 := if p.term > c.term then SaveMeta(c.(term := p.term, votedFor := "", role := Follower)) else c;
      if (c1.votedFor == "" || c1.votedFor == p.candidateId) && IsUpToDate(c1.log, p.prevLogIndex, p.prevLogTerm)
      then (SaveMeta(c1.(votedFor := p.candidateId)), true)
      else (c1, false)
  }

  function VoteReply(c: Core, granted: bool, candidateId: Id): Packet {
    Packet(c.id, candidateId, RequestVoteResponse(c.term, granted, candidateId, c.id))
  }

  function HandleRequestVoteResponse(c: Core, p: Payload, peers: seq<Id>): Core
    requires p.RequestVoteResponse?
  {
    if p.term < c.term then c
    else if p.term > c.term then SwitchToFollower(c, p.term)
    else
      var c1 := c.(votes := c.votes[p.senderId := p.voteGranted]);
      if c1.role == Candidate && HasMajorityVotes(c1.votes, peers) then SwitchToLeader(c1, peers) else c1
  }

  /** `r` is what a handler may leave of term, vote and role when it starts no election and counts no vote. */
  ghost predicate StepsDownOrStays(c: Core, r: Core) {
    && r.id == c.id && Persisted(r)
    && (|| (r.term == c.term && r.votedFor == c.votedFor && r.role == c.role && r.votes == c.votes)
        || (r.term > c.term && r.votedFor == "" && r.role == Follower))
  }

  lemma HandleRequestVoteEffect(c: Core, p: Payload)
    requires Persisted(c) && p.RequestVote?
    ensures
      var (r, granted) := HandleRequestVote(c, p);
      && r.id == c.id && r.log == c.log && r.disk.logs == c.disk.logs && r.lastApplied == c.lastApplied
      && Persisted(r) && r.term >= c.term
      && (r.term == c.term ==> r.role == c.role && r.votes == c.votes)
      && (r.term == c.term && c.votedFor != "" ==> r.votedFor == c.votedFor)
      && (r.term > c.term ==> r.role == Follower)
      && (granted ==> r.votedFor == p.candidateId)
  {
  }

  lemma GrantedByReply(votes: map<Id, bool>, v: Id, granted: bool)
    ensures Granted(votes[v := granted]) <= Granted(votes) + (if granted then {v} else {})
  {
  }

  lemma HandleRequestVoteResponseEffect(c: Core, p: Payload, peers: seq<Id>)
    requires Persisted(c) && p.RequestVoteResponse?
    ensures
      var r := HandleRequestVoteResponse(c, p, peers);
      && r.id == c.id && r.log == c.log && r.disk.logs == c.disk.logs && r.lastApplied == c.lastApplied
      && Persisted(r)
      && (|| StepsDownOrStays(c, r)
          || (&& r.term == c.term == p.term && r.votedFor == c.votedFor
              && Granted(r.votes) <= Granted(c.votes) + (if p.voteGranted then {p.senderId} else {})
              && (r.role == c.role || (c.role == Candidate && r.role == Leader && HasMajorityVotes(r.votes, peers)))))
  {
    GrantedByReply(c.votes, p.senderId, p.voteGranted);
  }

  // ---------------------------------------------------------------------------
  // Applying
  // ---------------------------------------------------------------------------

  /** What a command about learners does to the replication targets. */
  function TrackLearner(c: Core, cmd: Command): Core {
    match cmd.op
    case AddLearner =>
      c.(learners := c.learners + {cmd.key},
         nextIndex := c.nextIndex[cmd.key := c.commitIndex + 1],
         matchIndex := c.matchIndex[cmd.key := 0])
    case AddLearnerWithSnapshot =>
      c.(learners := c.learners + {cmd.key},
         nextIndex := c.nextIndex[cmd.key := cmd.snapshotIndex + 1],
         matchIndex := c.matchIndex[cmd.key := cmd.snapshotIndex])
    case RemoveLearner =>
      c.(learners := c.learners - {cmd.key},
         nextIndex := c.nextIndex - {cmd.key},
         matchIndex := c.matchIndex - {cmd.key})
    case _ => c
  }

  /** One turn of the loop of `applyLogToStateMachine`. */
  function ApplyNext(c: Core): Core
    requires 0 <= c.lastApplied < |c.log|
  {
    var cmd := c.log[c.lastApplied].command;
    SaveMeta(TrackLearner(c.(lastApplied := c.lastApplied + 1, disk := c.disk.(state := ApplyCommand(c.disk.state, cmd))), cmd))
  }

  /** `r` differs from `c` at most in how far its log is applied and in the learners it tracks. */
  ghost predicate AppliedFrom(c: Core, r: Core) {
    && r == c.(lastApplied := r.lastApplied, nextIndex := r.nextIndex, matchIndex := r.matchIndex,
               learners := r.learners, disk := r.disk)
    && r.disk.logs == c.disk.logs
    && r.lastApplied >= c.lastApplied
    && (Persisted(c) ==> Persisted(r))
  }

  function Apply(c: Core): (r: Core)
    requires c.lastApplied >= 0 && c.commitIndex <= |c.log|
    ensures AppliedFrom(c, r)
    decreases c.commitIndex - c.lastApplied
  {
    if c.lastApplied < c.commitIndex then Apply(ApplyNext(c)) else c
  }

  /** What is on disk before each write of one turn: the state is written first, the metadata after it. */
  function TurnPast(c: Core): seq<Disk>
    requires 0 <= c.lastApplied < |c.log|
  {
    var cmd := c.log[c.lastApplied].command;
    (if Writes(cmd) then [c.disk] else []) + [c.disk.(state := ApplyCommand(c.disk.state, cmd))]
  }

  function ApplyPast(c: Core): seq<Disk>
    requires c.lastApplied >= 0 && c.commitIndex <= |c.log|
    decreases c.commitIndex - c.lastApplied
  {
    if c.lastApplied < c.commitIndex then TurnPast(c) + ApplyPast(ApplyNext(c)) else []
  }

  lemma ApplyNextEffect(c: Core)
    requires 0 <= c.lastApplied < |c.log|
    ensures
      var r := ApplyNext(c);
      && r.log == c.log && r.commitIndex == c.commitIndex && r.lastApplied == c.lastApplied + 1
      && r.disk.state == ApplyCommand(c.disk.state, c.log[c.lastApplied].command)
  {
  }

  /** Applying runs the committed entries over the stored state, once each and in order. */
  lemma {:induction false} ApplyRunsEntries(c: Core)
    requires 0 <= c.lastApplied <= c.commitIndex <= |c.log|
    ensures Apply(c).lastApplied == c.commitIndex
    ensures Apply(c).disk.state == ApplyEntries(c.disk.state, c.log[c.lastApplied..c.commitIndex])
    decreases c.commitIndex - c.lastApplied
  {
    if c.lastApplied < c.commitIndex {
      ApplyNextEffect(c);
      ApplyRunsEntries(ApplyNext(c));
      assert c.log[c.lastApplied..c.commitIndex][1..] == c.log[c.lastApplied + 1..c.commitIndex];
    }
  }

  // ---------------------------------------------------------------------------
  // Replication
  // ---------------------------------------------------------------------------

  datatype Appended = Appended(core: Core, success: bool, conflictTerm: int, conflictIndex: int)

  function HandleAppendEntries(c: Core, p: Payload): Appended
    requires Shaped(c) && WellFormedAppend(p)
  {
    if p.term < c.term then Appended(c, false, 0, 0)
    else AppendInTerm((if p.term > c.term then SwitchToFollower(c, p.term) else c).(leaderHint := p.leaderId), p)
  }

  /** The handler once the node's term is the message's. */
  function AppendInTerm(c: Core, p: Payload): Appended
    requires Shaped(c) && WellFormedAppend(p)
  {
    if p.prevLogIndex > LastIndex(c.log) then Appended(c, false, 0, LastIndex(c.log) + 1)
    else if p.prevLogIndex > 0 && c.log[p.prevLogIndex - 1].term != p.prevLogTerm then
      var t := c.log[p.prevLogIndex - 1].term;
      var i := ConflictStart(c.log, p.prevLogIndex, t);
      Appended(c.(log := c.log[..i - 1], disk := c.disk.(logs := DeletedFrom(c.disk.logs, i))), false, t, i)
    else
      var q := Absorb(LogPair(c.log, c.disk.logs), p.entries, p.prevLogIndex, false);
      var c1 := FollowCommit(c.(log := q.mem, disk := c.disk.(logs := q.stored)), p.leaderCommit);
      Appended(c1, true, 0, LastIndex(c1.log))
  }

  /** What is on disk behind the first `i` entries of a message. */
  ghost function AppendDisk(c: Core, entries: seq<Entry>, prev: int, i: nat): Disk
    requires Follows(entries, prev) && (entries != [] ==> 0 <= prev <= |c.log|) && i <= |entries|
  {
    c.disk.(logs := Absorb(LogPair(c.log, c.disk.logs), entries[..i], prev, false).stored)
  }

  ghost predicate IsAppendDisk(c: Core, entries: seq<Entry>, prev: int, d: Disk)
    requires Follows(entries, prev) && (entries != [] ==> 0 <= prev <= |c.log|)
  {
    exists i: nat :: i <= |entries| && d == AppendDisk(c, entries, prev, i)
  }

  function FollowCommit(c: Core, leaderCommit: int): (r: Core)
    requires c.lastApplied >= 0
    ensures r == c.(commitIndex := r.commitIndex, lastApplied := r.lastApplied, nextIndex := r.nextIndex,
                    matchIndex := r.matchIndex, learners := r.learners, disk := r.disk)
    ensures r.disk.logs == c.disk.logs && r.lastApplied >= c.lastApplied
    ensures Persisted(c) ==> Persisted(r)
  {
    if leaderCommit > c.commitIndex
    then SaveMeta(Apply(c.(commitIndex := Min(leaderCommit, |c.log|))))
    else c
  }

  function FollowPast(c: Core, leaderCommit: int): seq<Disk>
    requires c.lastApplied >= 0
  {
    var c' := c.(commitIndex := Min(leaderCommit, |c.log|));
    if leaderCommit > c.commitIndex then ApplyPast(c') + [Apply(c').disk] else []
  }

  lemma AppendInTermEffect(c: Core, p: Payload)
    requires Shaped(c) && WellFormedAppend(p) && Persisted(c)
    ensures
      var r := AppendInTerm(c, p).core;
      && Persisted(r)
      && r == c.(log := r.log, commitIndex := r.commitIndex, lastApplied := r.lastApplied, nextIndex := r.nextIndex,
                 matchIndex := r.matchIndex, learners := r.learners, disk := r.disk)
      && r.lastApplied >= c.lastApplied
  {
  }

  lemma HandleAppendEntriesEffect(c: Core, p: Payload)
    requires Shaped(c) && WellFormedAppend(p) && Persisted(c)
    ensures StepsDownOrStays(c, HandleAppendEntries(c, p).core)
    ensures HandleAppendEntries(c, p).core.lastApplied >= c.lastApplied
  {
    if p.term >= c.term {
      AppendInTermEffect((if p.term > c.term then SwitchToFollower(c, p.term) else c).(leaderHint := p.leaderId), p);
    }
  }

  function AppendReply(a: Appended, leaderId: Id): Packet {
    Packet(a.core.id, leaderId,
           AppendEntriesResponse(a.core.term, a.success, leaderId, a.conflictTerm, a.conflictIndex, LastIndex(a.core.log)))
  }

  function FindLastIndexOfTerm(log: Log, term: int): int {
    if log == [] then 0
    else if log[|log| - 1].term == term then log[|log| - 1].index
    else FindLastIndexOfTerm(log[..|log| - 1], term)
  }

  /** `None` stands for the index-out-of-range panic of core/Raft.go:724. */
  ghost function HandleAppendEntriesResponse(c: Core, src: Id, p: Payload, peers: seq<Id>): (r: Option<Core>)
    requires c.lastApplied >= 0 && p.AppendEntriesResponse?
  {
    if p.term > c.term then Some(SwitchToFollower(c, p.term))
    else if c.role != Leader || p.term != c.term then Some(c)
    else if p.success then
      AdvanceCommitIndex(
        if p.commitIndex > 0 then
          c.(matchIndex := c.matchIndex[src := p.commitIndex], nextIndex := c.nextIndex[src := p.commitIndex + 1])
        else
          c.(matchIndex := c.matchIndex[src := At(c.nextIndex, src) - 1], nextIndex := c.nextIndex[src := At(c.nextIndex, src)]),
        peers)
    else
      Some(c.(nextIndex := BackOff(c, src, p)))
  }

  lemma HandleAppendEntriesResponseEffect(c: Core, src: Id, p: Payload, peers: seq<Id>)
    requires c.lastApplied >= 0 && p.AppendEntriesResponse? && Persisted(c)
    ensures
      var r := HandleAppendEntriesResponse(c, src, p, peers);
      r.Some? ==> StepsDownOrStays(c, r.value) && r.value.log == c.log && r.value.disk.logs == c.disk.logs
                  && r.value.lastApplied >= c.lastApplied
  {
  }

  function BackOff(c: Core, src: Id, p: Payload): map<Id, int>
    requires p.AppendEntriesResponse?
  {
    if p.conflictTerm != 0 then
      var last := FindLastIndexOfTerm(c.log, p.conflictTerm);
      c.nextIndex[src := if last > 0 then last + 1 else p.conflictIndex]
    else if At(c.nextIndex, src) > 1 then c.nextIndex[src := At(c.nextIndex, src) - 1]
    else c.nextIndex
  }

  /** The replication indexes `advanceCommitIndex` collects: its own, and those of the peers it tracks. */
  function MatchIndexes(c: Core, peers: seq<Id>): seq<int> {
    [LastIndex(c.log)] + PeerIndexes(c, peers)
  }

  function PeerIndexes(c: Core, peers: seq<Id>): seq<int> {
    if peers == [] then []
    else PeerIndexes(c, peers[..|peers| - 1])
         + var p := peers[|peers| - 1]; if p != c.id && p in c.matchIndex then [c.matchIndex[p]] else []
  }

  ghost function AdvanceCommitIndex(c: Core, peers: seq<Id>): (r: Option<Core>)
    requires c.lastApplied >= 0
  {
    var indexes := MatchIndexes(c, peers);
    var n := Kth(indexes, |indexes| / 2);
    if n > c.commitIndex && n > 0 then
      if n > |c.log| then None
      else if c.log[n - 1].term == c.term then Some(Apply(c.(commitIndex := n)))
      else Some(c)
    else Some(c)
  }

  /**
   * When the commit index moves, it moves to an index at least `n - n/2` of the `n` collected ones have reached
   * (a strict majority for odd `n`), and the entry there is of the current term.
   */
  lemma CommitNeedsMedian(c: Core, peers: seq<Id>)
    requires c.lastApplied >= 0
    ensures
      var r := AdvanceCommitIndex(c, peers);
      var indexes := MatchIndexes(c, peers);
      r.Some? && r.value.commitIndex != c.commitIndex ==>
        var n := r.value.commitIndex;
        && c.commitIndex < n && 0 < n <= |c.log| && c.log[n - 1].term == c.term
        && CountAtLeast(indexes, n) >= |indexes| - |indexes| / 2
        && (|indexes| % 2 == 1 ==> 2 * CountAtLeast(indexes, n) > |indexes|)
  {
    var indexes := MatchIndexes(c, peers);
    MedianQuorum(indexes, Kth(indexes, |indexes| / 2));
  }

  /** The index panic happens exactly when half of the collected indexes, or more, are beyond the log and the commit index. */
  lemma AdvancePanicsIff(c: Core, peers: seq<Id>)
    requires c.lastApplied >= 0
    ensures
      var indexes := MatchIndexes(c, peers);
      AdvanceCommitIndex(c, peers) == None
      <==> CountAtLeast(indexes, Max(|c.log|, c.commitIndex) + 1) >= |indexes| - |indexes| / 2
  {
    var indexes, m := MatchIndexes(c, peers), Max(|c.log|, c.commitIndex);
    var n := Kth(indexes, |indexes| / 2);
    if n > m {
      CountBelowMonotone(indexes, m + 1, n);
    } else {
      CountBelowMonotone(indexes, n + 1, m + 1);
    }
  }

  /** What is on disk before each write of an advance. */
  ghost function AdvancePast(c: Core, peers: seq<Id>): seq<Disk>
    requires c.lastApplied >= 0
  {
    var n := Kth(MatchIndexes(c, peers), |MatchIndexes(c, peers)| / 2);
    if n > c.commitIndex && 0 < n <= |c.log| && c.log[n - 1].term == c.term
    then ApplyPast(c.(commitIndex := n))
    else []
  }

  /** The message that carries the log from position `k` on. */
  function TailMessage(c: Core, k: nat): Payload
    requires k <= |c.log|
  {
    AppendEntries(c.term, c.id, k, if k > 0 then c.log[k - 1].term else 0, c.log[k..], c.commitIndex)
  }

  /** `None` stands for the slice and index panics of core/Raft.go:677 and 683. */
  function SendAppendEntriesTo(c: Core, dst: Id): Option<Payload> {
    var next := At(c.nextIndex, dst);
    if 1 <= next <= |c.log| + 1 then Some(TailMessage(c, next - 1)) else None
  }

  function SendHeartbeat(c: Core, dst: Id, term: int, commitIndex: int): Payload {
    var prev := At(c.nextIndex, dst) - 1;
    AppendEntries(term, c.id, prev, if 0 < prev <= |c.log| then c.log[prev - 1].term else 0, [], commitIndex)
  }

  function ProposeCommand(c: Core, cmd: Command): Core
    requires WellIndexed(c.log)
  {
    if c.role != Leader then c
    else
      var e := Entry(LastIndex(c.log) + 1, c.term, cmd);
      c.(log := c.log + [e], disk := c.disk.(logs := c.disk.logs[e.index := e]))
  }

  /** What `NewRaftClient` reads back from the disk. */
  ghost function Booted(id: Id, disk: Disk): Core {
    var m := disk.LoadMeta();
    Core(id, Follower, m.term, m.votedFor, Load(disk.logs), m.commitIndex, m.lastApplied,
         map[], map[], map[], "", {}, disk)
  }

  /** `NewRaftClient`; `None` when re-applying runs past the stored log. */
  ghost function Restart(id: Id, disk: Disk): Option<Core> {
    var c := Booted(id, disk);
    if c.lastApplied < 0 || (c.commitIndex > c.lastApplied && c.commitIndex > |c.log|) then None
    else if c.commitIndex > c.lastApplied then Some(Apply(c))
    else Some(c)
  }

  /** What is on disk before each write of it. */
  ghost function RestartPast(id: Id, disk: Disk): seq<Disk> {
    var c := Booted(id, disk);
    if 0 <= c.lastApplied < c.commitIndex <= |c.log| then ApplyPast(c) else []
  }
}
