/**
 * What an AppendEntries message does to a core node and to a learner (core/Raft.go:490-565, core/Learner.go:108-178), told
 * from the logs before and after: when it is refused and what is cut off, what is taken in, and what the answer says.
 */
module AppendEffects {
  import opened Common
  import opened RaftTypes
  import opened RaftLog
  import N = RaftNode
  import E = RaftEffects
  import L = LearnerNode

  /** The run of equal terms that ends at index `prev` begins at index `i`. */
  ghost predicate RunBegins(log: Log, prev: int, i: int) {
    && 1 <= i <= prev <= |log|
    && (forall j :: i - 1 <= j < prev ==> log[j].term == log[prev - 1].term)
    && (i > 1 ==> log[i - 2].term != log[prev - 1].term)
  }

  lemma RunHasTerm(log: Log, prev: int, i: int, k: int)
    requires RunBegins(log, prev, i) && i - 1 <= k < prev
    ensures log[k].term == log[prev - 1].term
  {
  }

  lemma RunBeginsUnique(log: Log, prev: int, i: int, j: int)
    requires RunBegins(log, prev, i) && RunBegins(log, prev, j)
    ensures i == j
  {
    if i < j {
      RunHasTerm(log, prev, i, j - 2);
    } else if j < i {
      RunHasTerm(log, prev, j, i - 2);
    }
  }

  /** Where a message starts; one that comes before everything carries no entries. */
  ghost function From(p: Payload): nat
    requires p.AppendEntries?
  {
    Max(p.prevLogIndex, 0)
  }

  /** What is left on disk of the entries below index `i`. */
  ghost predicate OnlyBelow(after: map<nat, Entry>, before: map<nat, Entry>, i: int) {
    forall k: nat :: (k in after <==> k in before && k < i) && (k in after ==> after[k] == before[k])
  }

  // ---------------------------------------------------------------------------
  // A core node
  // ---------------------------------------------------------------------------

  /** The node in the message's term, with its leader known. */
  ghost function InTerm(c: N.Core, p: Payload): N.Core
    requires p.AppendEntries?
  {
    if p.term > c.term
    then c.(term := p.term, role := N.Follower, votedFor := "", leaderHint := p.leaderId,
            disk := c.disk.(meta := Some(Meta(p.term, "", c.commitIndex, c.lastApplied))))
    else c.(leaderHint := p.leaderId)
  }

  ghost function Answer(r: N.Core, p: Payload, success: bool, conflictTerm: int, conflictIndex: int): Packet
    requires p.AppendEntries?
  {
    Packet(r.id, p.leaderId, AppendEntriesResponse(r.term, success, p.leaderId, conflictTerm, conflictIndex, |r.log|))
  }

  /** A message of an older term is refused and changes nothing. */
  lemma CoreRefusesOldTerm(c: N.Core, p: Payload)
    requires N.Shaped(c) && WellFormedAppend(p) && p.term < c.term
    ensures
      var a := N.HandleAppendEntries(c, p);
      a.core == c && N.AppendReply(a, p.leaderId) == Answer(c, p, false, 0, 0)
  {
  }

  /** One that starts behind the end of the log is refused with the index right behind that end. */
  lemma CoreRefusesGap(c: N.Core, p: Payload)
    requires N.Shaped(c) && WellFormedAppend(p) && p.term >= c.term && p.prevLogIndex > |c.log|
    ensures
      var a := N.HandleAppendEntries(c, p);
      a.core == InTerm(c, p) && N.AppendReply(a, p.leaderId) == Answer(a.core, p, false, 0, |c.log| + 1)
  {
  }

  lemma FirstTheTerm(c: N.Core, p: Payload)
    requires N.Shaped(c) && WellFormedAppend(p) && p.term >= c.term
    ensures N.Shaped(InTerm(c, p)) && N.HandleAppendEntries(c, p) == N.AppendInTerm(InTerm(c, p), p)
  {
  }

  lemma ConflictInTerm(c: N.Core, p: Payload, i: int)
    requires N.Shaped(c) && WellFormedAppend(p) && 0 < p.prevLogIndex <= |c.log|
    requires c.log[p.prevLogIndex - 1].term != p.prevLogTerm && RunBegins(c.log, p.prevLogIndex, i)
    ensures
      var t := c.log[p.prevLogIndex - 1].term;
      N.AppendInTerm(c, p)
      == N.Appended(c.(log := c.log[..i - 1], disk := c.disk.(logs := DeletedFrom(c.disk.logs, i))), false, t, i)
  {
    RunBeginsUnique(c.log, p.prevLogIndex, i, ConflictStart(c.log, p.prevLogIndex, c.log[p.prevLogIndex - 1].term));
  }

  /** One whose previous entry has another term is refused, and the whole run of the own term goes, on disk as well. */
  lemma CoreRefusesConflict(c: N.Core, p: Payload, i: int)
    requires N.Shaped(c) && WellFormedAppend(p) && p.term >= c.term && 0 < p.prevLogIndex <= |c.log|
    requires c.log[p.prevLogIndex - 1].term != p.prevLogTerm && RunBegins(c.log, p.prevLogIndex, i)
    ensures
      var a := N.HandleAppendEntries(c, p);
      && a.core == InTerm(c, p).(log := c.log[..i - 1], disk := InTerm(c, p).disk.(logs := a.core.disk.logs))
      && OnlyBelow(a.core.disk.logs, c.disk.logs, i)
      && N.AppendReply(a, p.leaderId) == Answer(a.core, p, false, c.log[p.prevLogIndex - 1].term, i)
  {
    FirstTheTerm(c, p);
    ConflictInTerm(InTerm(c, p), p, i);
  }

  /** A message of the term, or a later one, that fits the log. */
  ghost predicate Fits(log: Log, p: Payload)
    requires p.AppendEntries?
  {
    p.prevLogIndex <= |log| && (p.prevLogIndex > 0 ==> log[p.prevLogIndex - 1].term == p.prevLogTerm)
  }

  lemma HandledInTerm(c: N.Core, p: Payload)
    requires N.Shaped(c) && WellFormedAppend(p) && Fits(c.log, p)
    ensures
      var a := N.AppendInTerm(c, p);
      var q := Absorb(LogPair(c.log, c.disk.logs), p.entries, p.prevLogIndex, false);
      && a.core == N.FollowCommit(c.(log := q.mem, disk := c.disk.(logs := q.stored)), p.leaderCommit)
      && a == N.Appended(a.core, true, 0, LastIndex(q.mem))
  {
  }

  lemma CoreHandled(c: N.Core, p: Payload)
    requires N.Shaped(c) && WellFormedAppend(p) && p.term >= c.term && Fits(c.log, p)
    ensures
      var a := N.HandleAppendEntries(c, p);
      var q := Absorb(LogPair(c.log, c.disk.logs), p.entries, p.prevLogIndex, false);
      && a.core == N.FollowCommit(InTerm(c, p).(log := q.mem, disk := InTerm(c, p).disk.(logs := q.stored)), p.leaderCommit)
      && a == N.Appended(a.core, true, 0, LastIndex(q.mem))
  {
    FirstTheTerm(c, p);
    HandledInTerm(InTerm(c, p), p);
  }

  lemma CoreTakenLogs(c: N.Core, p: Payload, d: nat)
    requires N.Shaped(c) && WellFormedAppend(p) && p.term >= c.term && Fits(c.log, p)
    requires KnownUpTo(c.log, p.entries, From(p), d)
    ensures
      var r := N.HandleAppendEntries(c, p).core;
      && IsMerged(c.log, p.entries, From(p), d, r.log)
      && forall k: nat :: StoredAt(r.disk.logs, c.disk.logs, p.entries, From(p), d, k)
  {
    var lp := LogPair(c.log, c.disk.logs);
    var q := Absorb(lp, p.entries, p.prevLogIndex, false);
    CoreHandled(c, p);
    AbsorbMerges(lp, p.entries, From(p), d, false);
    forall k: nat ensures StoredAt(q.stored, c.disk.logs, p.entries, From(p), d, k) {
      AbsorbStores(lp, p.entries, From(p), d, k);
    }
  }

  lemma LastIndexIsLength(log: Log)
    requires WellIndexed(log)
    ensures LastIndex(log) == |log|
  {
  }

  lemma CoreTakenRest(c: N.Core, p: Payload)
    requires N.Shaped(c) && WellFormedAppend(p) && p.term >= c.term && Fits(c.log, p)
    ensures
      var a := N.HandleAppendEntries(c, p);
      && N.AppendReply(a, p.leaderId) == Answer(a.core, p, true, 0, |a.core.log|)
      && var c1 := InTerm(c, p).(log := a.core.log, disk := InTerm(c, p).disk.(logs := a.core.disk.logs));
         if p.leaderCommit <= c.commitIndex then a.core == c1
         else E.CommittedTo(c1, a.core, Min(p.leaderCommit, |a.core.log|))
  {
    var q := Absorb(LogPair(c.log, c.disk.logs), p.entries, p.prevLogIndex, false);
    CoreHandled(c, p);
    AbsorbShape(LogPair(c.log, c.disk.logs), p.entries, p.prevLogIndex, false);
    LastIndexIsLength(q.mem);
    E.FollowerCommitsIff(InTerm(c, p).(log := q.mem, disk := InTerm(c, p).disk.(logs := q.stored)), p.leaderCommit);
  }

  /** Any other message is taken in: the log, the store, the commit index and the answer. */
  lemma CoreTakesIn(c: N.Core, p: Payload, d: nat)
    requires N.Shaped(c) && WellFormedAppend(p) && p.term >= c.term && Fits(c.log, p)
    requires KnownUpTo(c.log, p.entries, From(p), d)
    ensures
      var a := N.HandleAppendEntries(c, p);
      && IsMerged(c.log, p.entries, From(p), d, a.core.log)
      && (forall k: nat :: StoredAt(a.core.disk.logs, c.disk.logs, p.entries, From(p), d, k))
      && N.AppendReply(a, p.leaderId) == Answer(a.core, p, true, 0, |a.core.log|)
      && var c1 := InTerm(c, p).(log := a.core.log, disk := InTerm(c, p).disk.(logs := a.core.disk.logs));
         if p.leaderCommit <= c.commitIndex then a.core == c1
         else E.CommittedTo(c1, a.core, Min(p.leaderCommit, |a.core.log|))
  {
    CoreTakenLogs(c, p, d);
    CoreTakenRest(c, p);
  }

  // ---------------------------------------------------------------------------
  // A learner
  // ---------------------------------------------------------------------------

  /** A learner only ever raises its term, and stores it with the next metadata. */
  ghost function Greeted(l: L.Learner, p: Payload): L.Learner
    requires p.AppendEntries?
  {
    if p.term >= l.term then l.(term := p.term, leaderHint := p.leaderId) else l
  }

  ghost function LearnerAnswer(r: L.Learner, p: Payload, success: bool, conflictTerm: int, conflictIndex: int): Packet
    requires p.AppendEntries?
  {
    Packet(r.id, p.leaderId, AppendEntriesResponse(r.term, success, p.leaderId, conflictTerm, conflictIndex, |r.log|))
  }

  lemma LearnerRefusesGap(l: L.Learner, p: Payload)
    requires L.Shaped(l) && WellFormedAppend(p) && p.prevLogIndex > |l.log|
    ensures
      var a := L.HandleAppendEntries(l, p);
      !a.success && a.learner == Greeted(l, p) && L.AppendReply(a, p.leaderId) == LearnerAnswer(a.learner, p, false, 0, |l.log| + 1)
  {
  }

  lemma LearnerRefusesConflict(l: L.Learner, p: Payload, i: int)
    requires L.Shaped(l) && WellFormedAppend(p) && 0 < p.prevLogIndex <= |l.log|
    requires l.log[p.prevLogIndex - 1].term != p.prevLogTerm && RunBegins(l.log, p.prevLogIndex, i)
    ensures
      var a := L.HandleAppendEntries(l, p);
      && !a.success
      && a.learner == Greeted(l, p).(log := l.log[..i - 1], disk := l.disk.(logs := a.learner.disk.logs))
      && OnlyBelow(a.learner.disk.logs, l.disk.logs, i)
      && L.AppendReply(a, p.leaderId) == LearnerAnswer(a.learner, p, false, l.log[p.prevLogIndex - 1].term, i)
  {
    RunBeginsUnique(l.log, p.prevLogIndex, i, ConflictStart(l.log, p.prevLogIndex, l.log[p.prevLogIndex - 1].term));
  }

  /** The store and the counters of a learner that has followed a commit index. */
  ghost predicate LearnerCommittedTo(l: L.Learner, r: L.Learner, ci: int)
    requires 0 <= l.lastApplied && ci <= |l.log|
  {
    && r.commitIndex == ci && r.lastApplied == Max(l.lastApplied, ci)
    && r.disk.state == (if l.lastApplied < ci then ApplyEntries(l.disk.state, l.log[l.lastApplied..ci]) else l.disk.state)
    && r.disk.meta == Some(Meta(l.term, "", ci, r.lastApplied)) && r.disk.logs == l.disk.logs
    && r == l.(commitIndex := ci, lastApplied := r.lastApplied, disk := r.disk)
  }

  lemma LearnerCommitsIff(l: L.Learner, leaderCommit: int)
    requires l.lastApplied >= 0
    ensures
      var r := L.FollowCommit(l, leaderCommit);
      if leaderCommit <= l.commitIndex then r == l
      else LearnerCommittedTo(l, r, Min(leaderCommit, |l.log|))
  {
    var ci := Min(leaderCommit, |l.log|);
    if leaderCommit > l.commitIndex && l.lastApplied < ci {
      L.ApplyRunsEntries(l.(commitIndex := ci));
    }
  }

  /**
   * Any other message is taken in: the log is the merged one and the store holds exactly that log, where it held exactly
   * the old one; the commit index follows; and the answer reports the end of the log, at or behind the end of the message.
   */
  lemma LearnerTakesIn(l: L.Learner, p: Payload, d: nat)
    requires L.LogsAgree(l) && WellFormedAppend(p) && Fits(l.log, p) && KnownUpTo(l.log, p.entries, From(p), d)
    ensures
      var a := L.HandleAppendEntries(l, p);
      && a.success && IsMerged(l.log, p.entries, From(p), d, a.learner.log)
      && p.prevLogIndex + |p.entries| <= |a.learner.log|
      && a.learner.disk.logs == LogMap(a.learner.log)
      && L.AppendReply(a, p.leaderId) == LearnerAnswer(a.learner, p, true, 0, |a.learner.log|)
      && var l1 := Greeted(l, p).(log := a.learner.log, disk := l.disk.(logs := a.learner.disk.logs));
         if p.leaderCommit <= l.commitIndex then a.learner == l1
         else LearnerCommittedTo(l1, a.learner, Min(p.leaderCommit, |a.learner.log|))
  {
    var lp := LogPair(l.log, l.disk.logs);
    var q := Absorb(lp, p.entries, p.prevLogIndex, true);
    AbsorbMerges(lp, p.entries, From(p), d, true);
    AbsorbInStep(lp, p.entries, p.prevLogIndex);
    LearnerCommitsIff(Greeted(l, p).(log := q.mem, disk := l.disk.(logs := q.stored)), p.leaderCommit);
    LearnerHandled(l, p);
  }

  lemma LearnerHandled(l: L.Learner, p: Payload)
    requires L.Shaped(l) && WellFormedAppend(p) && Fits(l.log, p)
    ensures
      var a := L.HandleAppendEntries(l, p);
      var q := Absorb(LogPair(l.log, l.disk.logs), p.entries, p.prevLogIndex, true);
      && a.learner == L.FollowCommit(Greeted(l, p).(log := q.mem, disk := l.disk.(logs := q.stored)), p.leaderCommit)
      && a == L.Appended(a.learner, true, 0, |q.mem|)
  {
  }

  /** Of the message, entry by entry: what the old log had of that index and term, and the entry itself otherwise. */
  ghost predicate HasEntry(log: Log, before: Log, e: Entry, k: int) {
    && 0 <= k < |log| && log[k].index == e.index && log[k].term == e.term
    && (log[k] == e || (k < |before| && log[k] == before[k] && before[k].term == e.term))
  }

  lemma MergedHasEntry(log: Log, entries: seq<Entry>, prev: nat, d: nat, merged: Log, i: nat)
    requires WellIndexed(log) && Follows(entries, prev)
    requires KnownUpTo(log, entries, prev, d) && IsMerged(log, entries, prev, d, merged) && i < |entries|
    ensures HasEntry(merged, log, entries[i], prev + i)
    ensures forall j :: 0 <= j < prev ==> merged[j] == log[j]
  {
    if i < d {
      assert log[prev + i].term == entries[i].term && merged[prev + i] == log[prev + i];
    } else {
      assert merged[prev + i] == entries[d..][i - d];
    }
  }

  lemma LearnerHasMessage(l: L.Learner, p: Payload, i: nat)
    requires L.LogsAgree(l) && WellFormedAppend(p) && L.HandleAppendEntries(l, p).success && i < |p.entries|
    ensures
      var log := L.HandleAppendEntries(l, p).learner.log;
      HasEntry(log, l.log, p.entries[i], p.prevLogIndex + i) && forall j :: 0 <= j < p.prevLogIndex ==> log[j] == l.log[j]
  {
    SuccessFits(l, p);
    var d := KnownUpToExists(l.log, p.entries, p.prevLogIndex, 0);
    LearnerMerges(l, p, d);
    MergedHasEntry(l.log, p.entries, p.prevLogIndex, d, L.HandleAppendEntries(l, p).learner.log, i);
  }

  lemma LearnerMerges(l: L.Learner, p: Payload, d: nat)
    requires L.LogsAgree(l) && WellFormedAppend(p) && Fits(l.log, p) && KnownUpTo(l.log, p.entries, From(p), d)
    ensures IsMerged(l.log, p.entries, From(p), d, L.HandleAppendEntries(l, p).learner.log)
  {
    LearnerTakesIn(l, p, d);
  }

  lemma SuccessFits(l: L.Learner, p: Payload)
    requires L.Shaped(l) && WellFormedAppend(p) && L.HandleAppendEntries(l, p).success
    ensures Fits(l.log, p)
  {
  }

  /** The store of a learner after applying, key by key: the last committed write decides. */
  lemma LearnerStateIs(l: L.Learner)
    requires 0 <= l.lastApplied <= l.commitIndex <= |l.log|
    ensures IsResult(l.disk.state, l.log[l.lastApplied..l.commitIndex], L.Apply(l).disk.state)
  {
    L.ApplyRunsEntries(l);
    AppliedIffResult(l.disk.state, l.log[l.lastApplied..l.commitIndex], L.Apply(l).disk.state);
  }

  /** A start takes term and counters from the metadata and the log from the store, and applies what is committed. */
  lemma LearnerStartReadsDisk(id: Id, disk: Disk, n: nat)
    requires Dense(disk.logs, n)
    ensures
      var m, r := disk.LoadMeta(), L.Restart(id, disk);
      && (r == None <==> m.lastApplied < 0 || (m.lastApplied < m.commitIndex && m.commitIndex > n))
      && (r.Some? ==>
            && r.value.id == id && r.value.term == m.term && r.value.leaderHint == ""
            && |r.value.log| == n && (forall i :: 0 <= i < n ==> r.value.log[i] == disk.logs[i + 1])
            && r.value.commitIndex == m.commitIndex && r.value.lastApplied == Max(m.lastApplied, m.commitIndex)
            && r.value.disk.logs == disk.logs
            && (m.commitIndex <= m.lastApplied ==> r.value.disk == disk)
            && (m.lastApplied < m.commitIndex ==>
                  IsResult(disk.state, r.value.log[m.lastApplied..m.commitIndex], r.value.disk.state)))
  {
    var l := L.Booted(id, disk);
    LoadConsecutive(disk.logs, 1, n);
    if 0 <= l.lastApplied < l.commitIndex <= |l.log| {
      LearnerStateIs(l);
    }
  }
}
