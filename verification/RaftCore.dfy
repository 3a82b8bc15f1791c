/** The mutable core node of core/Raft.go, each handler proved against its function in RaftNode. */
module RaftCores {
  import opened Common
  import opened RaftTypes
  import opened RaftLog
  import opened RaftStorage
  import opened Selection
  import N = RaftNode

  class RaftCore {
    const id: Id
    const peers: seq<Id>
    const storage: Storage

    var role: N.Role
    var term: int
    var votedFor: Id
    var log: Log
    var commitIndex: int
    var lastApplied: int
    var nextIndex: map<Id, int>
    var matchIndex: map<Id, int>
    var votes: map<Id, bool>
    var leaderHint: Id
    var learners: set<Id>

    ghost function State(): N.Core
      reads this, storage
    {
      N.Core(id, role, term, votedFor, log, commitIndex, lastApplied, nextIndex, matchIndex, votes, leaderHint,
             learners, storage.View())
    }

    /** `NewRaftClient`; where re-applying runs past the stored log, and the source panics, nothing is promised. */
    constructor (id: Id, peers: seq<Id>, storage: Storage)
      modifies storage
      ensures this.id == id && this.peers == peers && this.storage == storage
      ensures N.Restart(id, old(storage.View())).Some? ==> N.Restart(id, old(storage.View())) == Some(State())
      ensures storage.past == old(storage.past) + N.RestartPast(id, old(storage.View()))
    {
      this.id, this.peers, this.storage := id, peers, storage;
      role, votes, nextIndex, matchIndex := N.Follower, map[], map[], map[];
      leaderHint, learners := "", {};
      term, votedFor, commitIndex, lastApplied, log := 0, "", 0, 0, [];
      new;
      ghost var disk := storage.View();
      var meta := storage.LoadMeta();
      term, votedFor, commitIndex, lastApplied := meta.term, meta.votedFor, meta.commitIndex, meta.lastApplied;
      log := storage.LoadLogs();
      assert State() == N.Booted(id, disk);
      if commitIndex > lastApplied && lastApplied >= 0 && commitIndex <= |log| {
        ApplyLogToStateMachine();
      }
    }

    method PersistTermAndVote()
      modifies storage
      ensures State() == N.SaveMeta(old(State()))
    {
      storage.SaveMeta(term, votedFor, commitIndex, lastApplied);
    }

    method SwitchToFollower(newTerm: int)
      modifies this, storage
      ensures State() == N.SwitchToFollower(old(State()), newTerm)
    {
      term, role, votedFor := newTerm, N.Follower, "";
      PersistTermAndVote();
    }

    method SwitchToCandidate()
      modifies this, storage
      ensures State() == N.SwitchToCandidate(old(State()))
    {
      role, term, votedFor := N.Candidate, term + 1, id;
      PersistTermAndVote();
      leaderHint := "";
    }

    method SwitchToLeader()
      modifies this
      ensures State() == N.SwitchToLeader(old(State()), peers)
    {
      role := N.Leader;
      TrackAll(LastIndex(log) + 1);
    }

    /** The two loops that start tracking. */
    method TrackAll(next: int)
      modifies this`nextIndex, this`matchIndex
      ensures nextIndex == N.Track(old(nextIndex), N.Tracked(old(State()), peers), next)
      ensures matchIndex == N.Track(old(matchIndex), N.Tracked(old(State()), peers), 0)
    {
      ghost var c := State();
      TrackPeers(next);
      TrackLearners(next);
      N.TrackBoth(c, peers, c.nextIndex, next);
      N.TrackBoth(c, peers, c.matchIndex, 0);
    }

    method TrackPeers(next: int)
      modifies this`nextIndex, this`matchIndex
      ensures
        var a := (set j | 0 <= j < |peers| :: peers[j]) - {id};
        nextIndex == N.Track(old(nextIndex), a, next) && matchIndex == N.Track(old(matchIndex), a, 0)
    {
      ghost var done: set<Id> := {};
      for i := 0 to |peers|
        invariant done == (set j | 0 <= j < i :: peers[j]) - {id}
        invariant nextIndex == N.Track(old(nextIndex), done, next)
        invariant matchIndex == N.Track(old(matchIndex), done, 0)
      {
        if peers[i] != id {
          N.TrackOne(old(nextIndex), done, peers[i], next);
          N.TrackOne(old(matchIndex), done, peers[i], 0);
          nextIndex := nextIndex[peers[i] := next];
          matchIndex := matchIndex[peers[i] := 0];
          done := done + {peers[i]};
        }
      }
    }

    method TrackLearners(next: int)
      modifies this`nextIndex, this`matchIndex
      ensures nextIndex == N.Track(old(nextIndex), learners - {id}, next)
      ensures matchIndex == N.Track(old(matchIndex), learners - {id}, 0)
    {
      var rest := learners;
      ghost var seen, done: set<Id> := {}, {};
      while rest != {}
        invariant seen + rest == learners && done == seen - {id}
        invariant nextIndex == N.Track(old(nextIndex), done, next)
        invariant matchIndex == N.Track(old(matchIndex), done, 0)
        decreases |rest|
      {
        var l :| l in rest;
        if l != id {
          N.TrackOne(old(nextIndex), done, l, next);
          N.TrackOne(old(matchIndex), done, l, 0);
          nextIndex := nextIndex[l := next];
          matchIndex := matchIndex[l := 0];
          done := done + {l};
        }
        seen, rest := seen + {l}, rest - {l};
      }
      assert seen == learners;
    }

    method HasMajorityVotes() returns (r: bool)
      ensures r == N.HasMajorityVotes(votes, peers)
    {
      var voteCount := 0;
      var rest := votes.Keys;
      ghost var counted: set<Id> := {};
      while rest != {}
        invariant rest <= votes.Keys
        invariant counted == set v | v in votes && v !in rest && votes[v]
        invariant voteCount == |counted|
        decreases |rest|
      {
        var v :| v in rest;
        rest := rest - {v};
        if votes[v] {
          voteCount := voteCount + 1;
          assert v !in counted;
          counted := counted + {v};
        }
      }
      assert counted == N.Granted(votes);
      return voteCount >= |peers| / 2 + 1;
    }

    method StartElection() returns (sent: seq<Packet>)
      modifies this, storage
      ensures State() == N.StartElection(old(State()))
      ensures sent == if old(role) == N.Leader then [] else N.VoteRequests(State(), peers)
    {
      sent := [];
      if role == N.Leader {
        return;
      }
      votes := map[id := true];
      SwitchToCandidate();
      sent := RequestVotes(RequestVote(term, id, LastIndex(log), LastTerm(log)));
    }

    /** The loop that sends the requests. */
    method RequestVotes(payload: Payload) returns (sent: seq<Packet>)
      requires payload == RequestVote(term, id, LastIndex(log), LastTerm(log))
      ensures sent == N.VoteRequests(State(), peers)
    {
      ghost var c := State();
      sent := [];
      for i := 0 to |peers|
        invariant sent + N.VoteRequests(c, peers[i..]) == N.VoteRequests(c, peers)
      {
        N.VoteRequestsTurn(c, peers, i, sent);
        if peers[i] != id {
          sent := sent + [Packet(id, peers[i], payload)];
        }
      }
      assert peers[|peers|..] == [];
      assert sent + N.VoteRequests(c, []) == sent;
    }

    method HandleRequestVote(p: Payload) returns (reply: Packet)
      requires p.RequestVote?
      modifies this, storage
      ensures
        var (c, granted) := N.HandleRequestVote(old(State()), p);
        State() == c && reply == N.VoteReply(c, granted, p.candidateId)
        && reply == Packet(id, p.candidateId, RequestVoteResponse(term, granted, p.candidateId, id))
    {
      var granted := false;
      if p.term >= term {
        if p.term > term {
          term, votedFor, role := p.term, "", N.Follower;
          PersistTermAndVote();
        }
        if (votedFor == "" || votedFor == p.candidateId) && N.IsUpToDate(log, p.prevLogIndex, p.prevLogTerm) {
          votedFor, granted := p.candidateId, true;
          PersistTermAndVote();
        }
      }
      reply := Packet(id, p.candidateId, RequestVoteResponse(term, granted, p.candidateId, id));
    }

    method HandleRequestVoteResponse(p: Payload)
      requires p.RequestVoteResponse?
      modifies this, storage
      ensures State() == N.HandleRequestVoteResponse(old(State()), p, peers)
    {
      if p.term < term {
        return;
      }
      if p.term > term {
        SwitchToFollower(p.term);
        return;
      }
      votes := votes[p.senderId := p.voteGranted];
      var majority := HasMajorityVotes();
      if role == N.Candidate && majority {
        SwitchToLeader();
      }
    }

    method ApplyLogToStateMachine()
      requires 0 <= lastApplied && commitIndex <= |log|
      modifies this, storage
      ensures State() == N.Apply(old(State()))
      ensures storage.past == old(storage.past) + N.ApplyPast(old(State()))
    {
      while lastApplied < commitIndex
        invariant lastApplied >= 0 && commitIndex <= |log|
        invariant N.Apply(State()) == N.Apply(old(State()))
        invariant storage.past + N.ApplyPast(State()) == old(storage.past) + N.ApplyPast(old(State()))
        decreases commitIndex - lastApplied
      {
        SeqAssoc(storage.past, N.TurnPast(State()), N.ApplyPast(N.ApplyNext(State())));
        ApplyNext();
      }
    }

    /** One turn of that loop. */
    method ApplyNext()
      requires 0 <= lastApplied < |log|
      modifies this, storage
      ensures State() == N.ApplyNext(old(State()))
      ensures storage.past == old(storage.past) + N.TurnPast(old(State()))
    {
      lastApplied := lastApplied + 1;
      Perform(log[lastApplied - 1].command);
      storage.SaveMeta(term, votedFor, commitIndex, lastApplied);
    }

    /** The switch over the command's kind. */
    method Perform(cmd: Command)
      modifies this, storage
      ensures
        var before := old(State());
        State() == N.TrackLearner(before.(disk := before.disk.(state := ApplyCommand(before.disk.state, cmd))), cmd)
      ensures storage.past == old(storage.past) + if Writes(cmd) then [old(storage.View())] else []
    {
      match cmd.op {
        case PutOp => storage.PutState(cmd.key, cmd.value);
        case DelOp => storage.DeleteState(cmd.key);
        case _ => TrackLearner(cmd);
      }
    }

    /** The commands about learners; an unknown one changes nothing. */
    method TrackLearner(cmd: Command)
      modifies this`learners, this`nextIndex, this`matchIndex
      ensures State() == N.TrackLearner(old(State()), cmd)
    {
      match cmd.op {
        case AddLearner =>
          learners := learners + {cmd.key};
          nextIndex := nextIndex[cmd.key := commitIndex + 1];
          matchIndex := matchIndex[cmd.key := 0];
        case AddLearnerWithSnapshot =>
          learners := learners + {cmd.key};
          nextIndex := nextIndex[cmd.key := cmd.snapshotIndex + 1];
          matchIndex := matchIndex[cmd.key := cmd.snapshotIndex];
        case RemoveLearner =>
          learners := learners - {cmd.key};
          nextIndex := nextIndex - {cmd.key};
          matchIndex := matchIndex - {cmd.key};
        case _ =>
      }
    }

    method HandleAppendEntries(p: Payload) returns (reply: Packet)
      requires N.Shaped(State()) && WellFormedAppend(p)
      modifies this, storage
      ensures
        var a := N.HandleAppendEntries(old(State()), p);
        State() == a.core && reply == N.AppendReply(a, p.leaderId)
    {
      if p.term < term {
        reply := Reply(p.leaderId, false, 0, 0);
        return;
      }
      if p.term > term {
        SwitchToFollower(p.term);
      }
      leaderHint := p.leaderId;
      reply := AppendInTerm(p);
    }

    method Reply(leaderId: Id, success: bool, conflictTerm: int, conflictIndex: int) returns (reply: Packet)
      ensures reply == N.AppendReply(N.Appended(State(), success, conflictTerm, conflictIndex), leaderId)
    {
      reply := Packet(id, leaderId,
                      AppendEntriesResponse(term, success, leaderId, conflictTerm, conflictIndex, LastIndex(log)));
    }

    /** `handleAppendEntries` once the term is settled. */
    method AppendInTerm(p: Payload) returns (reply: Packet)
      requires N.Shaped(State()) && WellFormedAppend(p)
      modifies this, storage
      ensures
        var a := N.AppendInTerm(old(State()), p);
        State() == a.core && reply == N.AppendReply(a, p.leaderId)
    {
      var lastIndex := LastIndex(log);
      if p.prevLogIndex > lastIndex {
        reply := Reply(p.leaderId, false, 0, lastIndex + 1);
      } else if p.prevLogIndex > 0 && log[p.prevLogIndex - 1].term != p.prevLogTerm {
        var conflictTerm := log[p.prevLogIndex - 1].term;
        var conflictIndex := FindConflictStart(log, p.prevLogIndex, conflictTerm);
        log := log[..conflictIndex - 1];
        storage.DeleteLogsFrom(conflictIndex);
        reply := Reply(p.leaderId, false, conflictTerm, conflictIndex);
      } else {
        AppendAll(p.entries, p.prevLogIndex);
        FollowCommit(p.leaderCommit);
        reply := Reply(p.leaderId, true, 0, LastIndex(log));
      }
    }

    /** The loop over the entries: a conflicting suffix goes from memory only. */
    method AppendAll(entries: seq<Entry>, ghost prev: int)
      requires entries != [] ==> 0 <= prev <= |log|
      requires Follows(entries, prev)
      modifies this`log, storage
      ensures
        var q := Absorb(LogPair(old(log), old(storage.logs)), entries, prev, false);
        State() == old(State()).(log := q.mem, disk := old(storage.View()).(logs := q.stored))
      ensures old(storage.past) <= storage.past
      ensures forall j :: |old(storage.past)| <= j < |storage.past| ==>
                N.IsAppendDisk(old(State()), entries, prev, storage.past[j])
    {
      ghost var c := State();
      for i := 0 to |entries|
        invariant State() == c.(log := log, disk := N.AppendDisk(c, entries, prev, i))
        invariant LogPair(log, storage.logs) == Absorb(LogPair(c.log, c.disk.logs), entries[..i], prev, false)
        invariant entries != [] ==> prev + i <= |log|
        invariant old(storage.past) <= storage.past
        invariant forall j :: |old(storage.past)| <= j < |storage.past| ==> N.IsAppendDisk(c, entries, prev, storage.past[j])
      {
        assert entries[..i + 1] == entries[..i] + [entries[i]];
        AbsorbLast(LogPair(c.log, c.disk.logs), entries[..i], entries[i], prev, false);
        assert N.IsAppendDisk(c, entries, prev, storage.View());
        TakeEntry(entries[i]);
      }
      assert entries[..|entries|] == entries;
    }

    /** One turn of that loop. */
    method TakeEntry(entry: Entry)
      requires 1 <= entry.index <= |log| + 1
      modifies this`log, storage
      ensures
        var q := AbsorbOne(LogPair(old(log), old(storage.logs)), entry, false);
        State() == old(State()).(log := q.mem, disk := old(storage.View()).(logs := q.stored))
      ensures storage.past == old(storage.past) || storage.past == old(storage.past) + [old(storage.View())]
    {
      var logIdx := entry.index - 1;
      if logIdx < |log| {
        if log[logIdx].term != entry.term {
          log := log[..logIdx];
        }
      }
      if |log| < entry.index {
        log := log + [entry];
        storage.SaveLog(entry);
      }
    }

    method FollowCommit(leaderCommit: int)
      requires lastApplied >= 0
      modifies this, storage
      ensures State() == N.FollowCommit(old(State()), leaderCommit)
      ensures storage.past == old(storage.past) + N.FollowPast(old(State()), leaderCommit)
    {
      if leaderCommit > commitIndex {
        var li := |log|;
        commitIndex := Min(leaderCommit, li);
        ApplyLogToStateMachine();
        storage.SaveMeta(term, votedFor, commitIndex, lastApplied);
      }
    }

    method FindLastIndexOfTerm(t: int) returns (r: int)
      ensures r == N.FindLastIndexOfTerm(log, t)
    {
      var i := |log| - 1;
      assert log[..|log|] == log;
      while i >= 0
        invariant -1 <= i < |log|
        invariant N.FindLastIndexOfTerm(log[..i + 1], t) == N.FindLastIndexOfTerm(log, t)
      {
        assert log[..i + 1][..i] == log[..i];
        if log[i].term == t {
          return log[i].index;
        }
        i := i - 1;
      }
      return 0;
    }

    /** `panicked` stands for an index out of range while advancing the commit index. */
    method HandleAppendEntriesResponse(src: Id, p: Payload) returns (panicked: bool)
      requires p.AppendEntriesResponse? && lastApplied >= 0
      modifies this, storage
      ensures panicked == N.HandleAppendEntriesResponse(old(State()), src, p, peers).None?
      ensures !panicked ==> N.HandleAppendEntriesResponse(old(State()), src, p, peers) == Some(State())
    {
      panicked := false;
      if p.term > term {
        SwitchToFollower(p.term);
        return;
      }
      if role != N.Leader || p.term != term {
        return;
      }
      if p.success {
        if p.commitIndex > 0 {
          matchIndex := matchIndex[src := p.commitIndex];
          nextIndex := nextIndex[src := p.commitIndex + 1];
        } else {
          matchIndex := matchIndex[src := N.At(nextIndex, src) - 1];
          nextIndex := nextIndex[src := matchIndex[src] + 1];
        }
        panicked := AdvanceCommitIndex();
      } else if p.conflictTerm != 0 {
        var last := FindLastIndexOfTerm(p.conflictTerm);
        nextIndex := nextIndex[src := if last > 0 then last + 1 else p.conflictIndex];
      } else if N.At(nextIndex, src) > 1 {
        nextIndex := nextIndex[src := N.At(nextIndex, src) - 1];
      }
    }

    /** The indexes `advanceCommitIndex` selects from: its own, and those of the peers it tracks. */
    method CollectIndexes() returns (indexes: seq<int>)
      ensures indexes == N.MatchIndexes(State(), peers)
    {
      indexes := [LastIndex(log)];
      for i := 0 to |peers|
        invariant indexes == [LastIndex(log)] + N.PeerIndexes(State(), peers[..i])
      {
        assert peers[..i + 1][..i] == peers[..i];
        if peers[i] != id && peers[i] in matchIndex {
          indexes := indexes + [matchIndex[peers[i]]];
        }
      }
      assert peers[..|peers|] == peers;
    }

    method AdvanceCommitIndex() returns (panicked: bool)
      requires lastApplied >= 0
      modifies this, storage
      ensures panicked == N.AdvanceCommitIndex(old(State()), peers).None?
      ensures !panicked ==> N.AdvanceCommitIndex(old(State()), peers) == Some(State())
      ensures storage.past == old(storage.past) + N.AdvancePast(old(State()), peers)
    {
      var indexes := CollectIndexes();
      var mid := |indexes| / 2;
      var n := QuickSelect(indexes, mid);
      KthUnique(indexes, mid, n, Kth(indexes, mid));
      if n > commitIndex && n > 0 {
        if n > |log| {
          return true;
        }
        if log[n - 1].term == term {
          commitIndex := n;
          ApplyLogToStateMachine();
        }
      }
      return false;
    }

    /** `None` where the slice or index expression panics. */
    method SendAppendEntriesTo(dst: Id) returns (p: Option<Payload>)
      ensures p == N.SendAppendEntriesTo(State(), dst)
    {
      var next := N.At(nextIndex, dst);
      if next < 1 || next > |log| + 1 {
        return None;
      }
      var payload := TailMessage(next);
      return Some(payload);
    }

    /** The message of that method. */
    method TailMessage(next: int) returns (p: Payload)
      requires 1 <= next <= |log| + 1
      ensures p == N.TailMessage(State(), next - 1)
    {
      var entries := [];
      if next <= |log| {
        entries := log[next - 1..];
      }
      assert entries == log[next - 1..];
      var prevLogIndex, prevLogTerm := next - 1, 0;
      if prevLogIndex > 0 {
        prevLogTerm := log[prevLogIndex - 1].term;
      }
      p := AppendEntries(term, id, prevLogIndex, prevLogTerm, entries, commitIndex);
    }

    method SendHeartbeat(dst: Id, term: int, commitIndex: int) returns (p: Payload)
      ensures p == N.SendHeartbeat(State(), dst, term, commitIndex)
    {
      var prevLogIndex := N.At(nextIndex, dst) - 1;
      var prevLogTerm := 0;
      if prevLogIndex > 0 && prevLogIndex <= |log| {
        prevLogTerm := log[prevLogIndex - 1].term;
      }
      p := AppendEntries(term, id, prevLogIndex, prevLogTerm, [], commitIndex);
    }

    /** `targets` are the nodes `sendAppendEntriesTo` is then started for: all other peers and all learners. */
    method ProposeCommand(cmd: Command) returns (targets: set<Id>)
      requires WellIndexed(log)
      modifies this, storage
      ensures State() == N.ProposeCommand(old(State()), cmd)
      ensures forall x :: x in targets <==> old(role) == N.Leader && ((x in peers && x != id) || x in learners)
    {
      targets := {};
      if role != N.Leader {
        return;
      }
      var entry := Entry(LastIndex(log) + 1, term, cmd);
      log := log + [entry];
      storage.SaveLog(entry);
      for i := 0 to |peers|
        invariant forall x :: x in targets <==> x in peers[..i] && x != id
      {
        assert peers[..i + 1] == peers[..i] + [peers[i]];
        if peers[i] != id {
          targets := targets + {peers[i]};
        }
      }
      assert peers[..|peers|] == peers;
      targets := targets + learners;
    }
  }
}
