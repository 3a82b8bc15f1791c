/** The mutable learner of core/Learner.go, proved against LearnerNode. */
module RaftLearners {
  import opened Common
  import opened RaftTypes
  import opened RaftLog
  import opened RaftStorage
  import L = LearnerNode

  class RaftLearner {
    const id: Id
    const storage: Storage

    var term: int
    var log: Log
    var commitIndex: int
    var lastApplied: int
    var leaderHint: Id

    ghost function State(): L.Learner
      reads this, storage
    {
      L.Learner(id, term, log, commitIndex, lastApplied, leaderHint, storage.View())
    }

    /** `NewLearnerClient`. */
    constructor (id: Id, storage: Storage)
      modifies storage
      ensures this.id == id && this.storage == storage
      ensures L.Restart(id, old(storage.View())).Some? ==> L.Restart(id, old(storage.View())) == Some(State())
      ensures storage.past == old(storage.past) + L.RestartPast(id, old(storage.View()))
    {
      this.id, this.storage := id, storage;
      term, commitIndex, lastApplied, log, leaderHint := 0, 0, 0, [], "";
      new;
      ghost var disk := storage.View();
      var meta := storage.LoadMeta();
      term, commitIndex, lastApplied := meta.term, meta.commitIndex, meta.lastApplied;
      log := storage.LoadLogs();
      assert State() == L.Booted(id, disk);
      if commitIndex > lastApplied && lastApplied >= 0 && commitIndex <= |log| {
        ApplyLogToStateMachine();
      }
    }

    method ApplyLogToStateMachine()
      requires 0 <= lastApplied && commitIndex <= |log|
      modifies this`lastApplied, storage
      ensures State() == L.Apply(old(State()))
      ensures storage.past == old(storage.past) + L.ApplyPast(old(State()))
    {
      while lastApplied < commitIndex
        invariant lastApplied >= 0
        invariant L.ApplyLoop(State()) == L.ApplyLoop(old(State()))
        invariant storage.past + L.LoopPast(State()) == old(storage.past) + L.LoopPast(old(State()))
        decreases commitIndex - lastApplied
      {
        SeqAssoc(storage.past, L.TurnPast(State()), L.LoopPast(L.ApplyNext(State())));
        ApplyNext();
      }
      assert storage.past + [] == storage.past;
      SeqAssoc(old(storage.past), L.LoopPast(old(State())), [storage.View()]);
      storage.SaveMeta(term, "", commitIndex, lastApplied);
    }

    /** One turn of that loop. */
    method ApplyNext()
      requires 0 <= lastApplied < |log|
      modifies this`lastApplied, storage
      ensures State() == L.ApplyNext(old(State()))
      ensures storage.past == old(storage.past) + L.TurnPast(old(State()))
    {
      lastApplied := lastApplied + 1;
      var cmd := log[lastApplied - 1].command;
      match cmd.op {
        case PutOp => storage.PutState(cmd.key, cmd.value);
        case DelOp => storage.DeleteState(cmd.key);
        case _ =>
      }
    }

    method HandleAppendEntries(p: Payload) returns (reply: Packet)
      requires L.Shaped(State()) && WellFormedAppend(p)
      modifies this, storage
      ensures
        var a := L.HandleAppendEntries(old(State()), p);
        State() == a.learner && reply == L.AppendReply(a, p.leaderId)
    {
      if p.term >= term {
        term, leaderHint := p.term, p.leaderId;
      }
      var lastIndex := |log|;
      if p.prevLogIndex > lastIndex {
        reply := Reply(p.leaderId, false, 0, lastIndex + 1);
      } else if p.prevLogIndex > 0 && log[p.prevLogIndex - 1].term != p.prevLogTerm {
        var conflictTerm := log[p.prevLogIndex - 1].term;
        var conflictIndex := FindConflictStart(log, p.prevLogIndex, conflictTerm);
        log := log[..conflictIndex - 1];
        storage.DeleteLogsFrom(conflictIndex);
        reply := Reply(p.leaderId, false, conflictTerm, conflictIndex);
      } else {
        AppendAll(p.entries, p.prevLogIndex);
        FollowCommit(p.leaderCommit);
        reply := Reply(p.leaderId, true, 0, |log|);
      }
    }

    method Reply(leaderId: Id, success: bool, conflictTerm: int, conflictIndex: int) returns (reply: Packet)
      ensures reply == L.AppendReply(L.Appended(State(), success, conflictTerm, conflictIndex), leaderId)
    {
      reply := Packet(id, leaderId, AppendEntriesResponse(term, success, leaderId, conflictTerm, conflictIndex, |log|));
    }

    /** The loop over the entries: a conflicting suffix goes from memory and from disk. */
    method AppendAll(entries: seq<Entry>, ghost prev: int)
      requires entries != [] ==> 0 <= prev <= |log|
      requires Follows(entries, prev)
      modifies this`log, storage
      ensures
        var q := Absorb(LogPair(old(log), old(storage.logs)), entries, prev, true);
        State() == old(State()).(log := q.mem, disk := old(storage.View()).(logs := q.stored))
    {
      for i := 0 to |entries|
        invariant entries != [] ==> 0 <= prev + i <= |log|
        invariant State() == old(State()).(log := log, disk := old(storage.View()).(logs := storage.logs))
        invariant Follows(entries[i..], prev + i)
        invariant Absorb(LogPair(log, storage.logs), entries[i..], prev + i, true)
               == Absorb(LogPair(old(log), old(storage.logs)), entries, prev, true)
      {
        assert entries[i..][0] == entries[i] && entries[i..][1..] == entries[i + 1..];
        assert entries[i].index == prev + 1 + i;
        TakeEntry(entries[i]);
      }
      assert entries[|entries|..] == [];
    }

    /** One turn of that loop. */
    method TakeEntry(entry: Entry)
      requires 1 <= entry.index <= |log| + 1
      modifies this`log, storage
      ensures
        var q := AbsorbOne(LogPair(old(log), old(storage.logs)), entry, true);
        State() == old(State()).(log := q.mem, disk := old(storage.View()).(logs := q.stored))
    {
      var logIdx := entry.index - 1;
      if logIdx < |log| {
        if log[logIdx].term != entry.term {
          log := log[..logIdx];
          storage.DeleteLogsFrom(entry.index);
        }
      }
      if |log| < entry.index {
        log := log + [entry];
        storage.SaveLog(entry);
      }
    }

    method FollowCommit(leaderCommit: int)
      requires lastApplied >= 0
      modifies this, storage
      ensures State() == L.FollowCommit(old(State()), leaderCommit)
      ensures storage.past == old(storage.past) + L.FollowPast(old(State()), leaderCommit)
    {
      if leaderCommit > commitIndex {
        var li := |log|;
        commitIndex := Min(leaderCommit, li);
        ApplyLogToStateMachine();
        storage.SaveMeta(term, "", commitIndex, lastApplied);
      }
    }
  }
}
