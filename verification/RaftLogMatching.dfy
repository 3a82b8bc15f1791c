/**
 * Log Matching (Raft, section 5.3 and Figure 3) over every run in which a core node that crashes reads back the log it
 * had: entries with the same index and term are the same, and so is everything before them, in every two logs and every
 * message in flight.
 */
module RaftLogMatching {
  import opened Common
  import opened RaftTypes
  import opened RaftLog
  import opened RaftNode
  import opened RaftSystem
  import opened RaftElection
  import L = LearnerNode

  type Tenures = map<int, Tenure>

  /** Up to entry `i`, the log is a prefix of what the leader of that entry's term had. */
  ghost predicate EntryOk(tenures: Tenures, log: Log, i: nat)
    requires i < |log|
  {
    log[i].term in tenures && log[..i + 1] <= tenures[log[i].term].log
  }

  ghost predicate LogOk(tenures: Tenures, log: Log) {
    forall i: nat :: i < |log| ==> EntryOk(tenures, log, i)
  }

  ghost predicate TermsUpTo(log: Log, term: int) {
    forall i :: 0 <= i < |log| ==> log[i].term <= term
  }

  /** `entries` are those of `log` from position `k` on. */
  ghost predicate IsSlice(entries: seq<Entry>, log: Log, k: int) {
    0 <= k && k + |entries| <= |log| && forall i :: 0 <= i < |entries| ==> entries[i] == log[k + i]
  }

  lemma SliceEqual(entries: seq<Entry>, log: Log, k: int)
    requires IsSlice(entries, log, k)
    ensures entries == log[k..k + |entries|]
  {
  }

  /** A message with entries carries a slice of the log of the leader that sent it. */
  ghost predicate SliceOk(tenures: Tenures, pkt: Packet) {
    var p := pkt.payload;
    p.AppendEntries? ==>
      && p.term in tenures && tenures[p.term].leader == pkt.src && pkt.src != pkt.dst
      && (p.entries != [] ==>
            var log := tenures[p.term].log;
            && IsSlice(p.entries, log, p.prevLogIndex)
            && (p.prevLogIndex > 0 ==> p.prevLogTerm == log[p.prevLogIndex - 1].term))
  }

  ghost predicate SoundTenure(tenures: Tenures, t: int) {
    && t in tenures
    && WellIndexed(tenures[t].log) && LogOk(tenures, tenures[t].log) && TermsUpTo(tenures[t].log, t)
  }

  ghost predicate TenureInv(s: System, t: int)
    requires t in s.tenures
  {
    var leader := s.tenures[t].leader;
    && SoundTenure(s.tenures, t)
    && leader in s.nodes && t <= s.nodes[leader].term
    && (t == s.nodes[leader].term ==> s.nodes[leader].role != Candidate)
  }

  ghost predicate CoreInv(s: System, c: Core) {
    && Shaped(c) && LogOk(s.tenures, c.log) && TermsUpTo(c.log, c.term)
    && (c.role == Leader ==> c.term in s.tenures && s.tenures[c.term] == Tenure(c.id, c.log))
  }

  ghost predicate LearnerInv(tenures: Tenures, l: L.Learner) {
    L.LogsAgree(l) && LogOk(tenures, l.log)
  }

  ghost predicate LogInv(s: System) {
    && ElectionInv(s)
    && (forall t :: t in s.tenures ==> TenureInv(s, t))
    && (forall n :: n in s.nodes ==> CoreInv(s, s.nodes[n]))
    && (forall l :: l in s.learners ==> LearnerInv(s.tenures, s.learners[l]))
    && (forall p :: p in s.net ==> SliceOk(s.tenures, p))
  }

  // ---------------------------------------------------------------------------
  // Logs and tenures
  // ---------------------------------------------------------------------------

  /** The heart of it: both logs are the same prefix of the same leader's log. */
  lemma LogOkMatching(tenures: Tenures, a: Log, b: Log)
    requires LogOk(tenures, a) && LogOk(tenures, b)
    ensures Matching(a, b)
  {
    forall i | 0 <= i < |a| && i < |b| && a[i].term == b[i].term
      ensures a[..i + 1] == b[..i + 1]
    {
      assert EntryOk(tenures, a, i) && EntryOk(tenures, b, i);
      var log := tenures[a[i].term].log;
      assert a[..i + 1] == log[..i + 1] == b[..i + 1];
    }
  }

  lemma LogOkPrefix(tenures: Tenures, log: Log, n: nat)
    requires LogOk(tenures, log) && n <= |log|
    ensures LogOk(tenures, log[..n])
  {
    forall i: nat | i < n
      ensures EntryOk(tenures, log[..n], i)
    {
      assert log[..n][..i + 1] == log[..i + 1];
      assert EntryOk(tenures, log, i);
    }
  }

  /** Later tenures: nobody's reign is forgotten, and the logs of leaders only grow. */
  ghost predicate Extends(old_: Tenures, new_: Tenures) {
    forall t :: t in old_ ==> t in new_ && new_[t].leader == old_[t].leader && old_[t].log <= new_[t].log
  }

  lemma LogOkExtends(a: Tenures, b: Tenures, log: Log)
    requires LogOk(a, log) && Extends(a, b)
    ensures LogOk(b, log)
  {
    forall i: nat | i < |log| ensures EntryOk(b, log, i) {
      assert EntryOk(a, log, i);
    }
  }

  lemma ExtendsTransitive(a: Tenures, b: Tenures, c: Tenures)
    requires Extends(a, b) && Extends(b, c)
    ensures Extends(a, c)
  {
  }

  lemma SliceOkExtends(a: Tenures, b: Tenures, pkt: Packet)
    requires SliceOk(a, pkt) && Extends(a, b)
    ensures SliceOk(b, pkt)
  {
    var p := pkt.payload;
    if p.AppendEntries? && p.entries != [] {
      var x, y := a[p.term].log, b[p.term].log;
      assert x == y[..|x|];
      forall i | 0 <= i < |p.entries| ensures p.entries[i] == y[p.prevLogIndex + i] {
        assert p.entries[i] == x[p.prevLogIndex + i];
      }
    }
  }

  /** Taking in a slice of a leader's log after a successful consistency check keeps a log well-founded. */
  lemma AbsorbFromLeader(tenures: Tenures, p: LogPair, c: Log, prev: nat, end: nat, purge: bool)
    requires prev < end <= |c| && prev <= |p.mem|
    requires WellIndexed(c) && LogOk(tenures, c) && LogOk(tenures, p.mem)
    requires prev > 0 ==> p.mem[prev - 1].term == c[prev - 1].term
    ensures Follows(c[prev..end], prev)
    ensures
      var q := Absorb(p, c[prev..end], prev, purge);
      LogOk(tenures, q.mem) && (q.mem == p.mem || q.mem == c[..end])
  {
    LogOkMatching(tenures, p.mem, c);
    assert p.mem[..prev] == c[..prev] by {
      if prev > 0 {
        var i := prev - 1;
        assert p.mem[..i + 1] == c[..i + 1];
      }
    }
    AbsorbSlice(p, c, prev, end, purge);
    LogOkPrefix(tenures, c, end);
  }

  lemma PrefixTermsUpTo(log: Log, end: nat, term: int)
    requires WellIndexed(log) && TermsUpTo(log, term) && end <= |log|
    ensures WellIndexed(log[..end]) && TermsUpTo(log[..end], term)
  {
  }

  /** The same, stated of the sending leader's last known log. */
  lemma AbsorbSoundSlice(tenures: Tenures, p: LogPair, term: int, entries: seq<Entry>, prev: nat, purge: bool)
    requires SoundTenure(tenures, term) && WellIndexed(p.mem) && LogOk(tenures, p.mem)
    requires entries != [] && prev <= |p.mem| && prev + |entries| <= |tenures[term].log|
    requires entries == tenures[term].log[prev..prev + |entries|]
    requires prev > 0 ==> p.mem[prev - 1].term == tenures[term].log[prev - 1].term
    ensures Follows(entries, prev)
    ensures
      var q := Absorb(p, entries, prev, purge);
      && LogOk(tenures, q.mem) && WellIndexed(q.mem)
      && (q.mem == p.mem || TermsUpTo(q.mem, term))
  {
    var c, end := tenures[term].log, prev + |entries|;
    AbsorbFromLeader(tenures, p, c, prev, end, purge);
    PrefixTermsUpTo(c, end, term);
  }

  lemma AbsorbKeepsLogOk(tenures: Tenures, pkt: Packet, p: LogPair, purge: bool)
    requires WellFormedAppend(pkt.payload) && SliceOk(tenures, pkt) && SoundTenure(tenures, pkt.payload.term)
    requires WellIndexed(p.mem) && LogOk(tenures, p.mem)
    requires pkt.payload.prevLogIndex <= |p.mem|
    requires pkt.payload.prevLogIndex > 0 ==> p.mem[pkt.payload.prevLogIndex - 1].term == pkt.payload.prevLogTerm
    ensures
      var q := Absorb(p, pkt.payload.entries, pkt.payload.prevLogIndex, purge);
      && LogOk(tenures, q.mem) && WellIndexed(q.mem)
      && (q.mem == p.mem || TermsUpTo(q.mem, pkt.payload.term))
  {
    var entries, prev := pkt.payload.entries, pkt.payload.prevLogIndex;
    if entries != [] {
      SliceEqual(entries, tenures[pkt.payload.term].log, prev);
      AbsorbSoundSlice(tenures, p, pkt.payload.term, entries, prev, purge);
    }
  }

  lemma SliceIsWellFormed(s: System, pkt: Packet)
    requires LogInv(s) && pkt in s.net && pkt.payload.AppendEntries?
    ensures WellFormedAppend(pkt.payload)
  {
    var p := pkt.payload;
    assert SliceOk(s.tenures, pkt);
    if p.entries != [] {
      assert TenureInv(s, p.term);
      forall i | 0 <= i < |p.entries|
        ensures p.entries[i].index == p.prevLogIndex + 1 + i
      {
        assert p.entries[i] == s.tenures[p.term].log[p.prevLogIndex + i];
      }
    }
  }

  // ---------------------------------------------------------------------------
  // One step of a core node
  // ---------------------------------------------------------------------------

  /** What a step respects as far as logs are concerned. */
  ghost predicate LogLawful(s: System, c: Core, c': Core, sent: set<Packet>) {
    && Shaped(c')
    && (|| (c'.log == c.log && c'.role == c.role && c'.term == c.term)
        || (c'.role != Leader && c'.term >= c.term && (c'.term > c.term || (c.role != Leader && c'.role == c.role))
            && LogOk(s.tenures, c'.log) && TermsUpTo(c'.log, c'.term))
        || (c'.role == Follower && c'.term >= c.term && c'.log == c.log)
        || (c'.role == Leader && c.role == Candidate && c'.term == c.term && c'.log == c.log)
        || (c'.role == Leader && c.role == Leader && c'.term == c.term
            && |c'.log| == |c.log| + 1 && c.log <= c'.log && c'.log[|c.log|].term == c.term))
    && (forall p :: p in sent ==> SliceOk(s.tenures, p))
  }

  lemma TenuresExtend(s: System, c': Core, sent: set<Packet>)
    requires LogInv(s) && c'.id in s.nodes
    requires Lawful(s, s.nodes[c'.id], c', sent) && LogLawful(s, s.nodes[c'.id], c', sent)
    ensures Extends(s.tenures, Record(s, c', sent).tenures)
  {
    var c := s.nodes[c'.id];
    TenuresKeepLeader(s, c', sent);
    assert CoreInv(s, c);
    if c'.role == Leader && c.role == Candidate {
      // nobody led this term before: its leader would be this very node, and that is leading it or has restarted
      assert c'.term !in s.tenures;
    }
  }

  lemma ExtendedLogOk(tenures: Tenures, log: Log, longer: Log, t: int)
    requires LogOk(tenures, log) && |longer| == |log| + 1 && log <= longer && longer[|log|].term == t
    requires t in tenures && tenures[t].log == longer
    ensures LogOk(tenures, longer)
  {
    forall i: nat | i < |longer|
      ensures EntryOk(tenures, longer, i)
    {
      if i < |log| {
        assert longer[..i + 1] == log[..i + 1];
        assert EntryOk(tenures, log, i);
      } else {
        assert longer[..i + 1] == longer;
      }
    }
  }

  lemma LogLawfulCore(s: System, c': Core, sent: set<Packet>)
    requires LogInv(s) && c'.id in s.nodes
    requires Lawful(s, s.nodes[c'.id], c', sent) && LogLawful(s, s.nodes[c'.id], c', sent)
    ensures CoreInv(Record(s, c', sent), c')
  {
    var c, t' := s.nodes[c'.id], Record(s, c', sent).tenures;
    assert CoreInv(s, c);
    TenuresExtend(s, c', sent);
    if c'.role == Leader && c.role == Leader && |c'.log| > |c.log| {
      LogOkExtends(s.tenures, t', c.log);
      ExtendedLogOk(t', c.log, c'.log, c.term);
    } else {
      LogOkExtends(s.tenures, t', c'.log);
    }
  }

  lemma LogLawfulTenure(s: System, c': Core, sent: set<Packet>, t: int)
    requires LogInv(s) && c'.id in s.nodes
    requires Lawful(s, s.nodes[c'.id], c', sent) && LogLawful(s, s.nodes[c'.id], c', sent)
    requires t in Record(s, c', sent).tenures
    ensures TenureInv(Record(s, c', sent), t)
  {
    var s' := Record(s, c', sent);
    TenuresExtend(s, c', sent);
    LogLawfulCore(s, c', sent);
    if c'.role != Leader || t != c'.term {
      assert TenureInv(s, t);
      LogOkExtends(s.tenures, s'.tenures, s.tenures[t].log);
    }
  }

  lemma LogLawfulKeepsInv(s: System, c': Core, sent: set<Packet>)
    requires LogInv(s) && c'.id in s.nodes
    requires Lawful(s, s.nodes[c'.id], c', sent) && LogLawful(s, s.nodes[c'.id], c', sent)
    ensures LogInv(Record(s, c', sent))
  {
    var s' := Record(s, c', sent);
    assert ElectionInv(s') by {
      LawfulKeepsInv(s, c', sent);
    }
    forall t | t in s'.tenures ensures TenureInv(s', t) {
      LogLawfulTenure(s, c', sent, t);
    }
    forall n | n in s'.nodes ensures CoreInv(s', s'.nodes[n]) {
      if n == c'.id {
        LogLawfulCore(s, c', sent);
      } else {
        OtherCoreKept(s, c', sent, n);
      }
    }
    forall l | l in s'.learners ensures LearnerInv(s'.tenures, s'.learners[l]) {
      LearnerKept(s, c', sent, l);
    }
    forall p | p in s'.net ensures SliceOk(s'.tenures, p) {
      PacketKept(s, c', sent, p);
    }
  }

  lemma LearnerKept(s: System, c': Core, sent: set<Packet>, l: Id)
    requires LogInv(s) && c'.id in s.nodes && l in s.learners
    requires Lawful(s, s.nodes[c'.id], c', sent) && LogLawful(s, s.nodes[c'.id], c', sent)
    ensures LearnerInv(Record(s, c', sent).tenures, s.learners[l])
  {
    TenuresExtend(s, c', sent);
    assert LearnerInv(s.tenures, s.learners[l]);
    LogOkExtends(s.tenures, Record(s, c', sent).tenures, s.learners[l].log);
  }

  lemma PacketKept(s: System, c': Core, sent: set<Packet>, p: Packet)
    requires LogInv(s) && c'.id in s.nodes && p in s.net + sent
    requires Lawful(s, s.nodes[c'.id], c', sent) && LogLawful(s, s.nodes[c'.id], c', sent)
    ensures SliceOk(Record(s, c', sent).tenures, p)
  {
    TenuresExtend(s, c', sent);
    assert SliceOk(s.tenures, p);
    SliceOkExtends(s.tenures, Record(s, c', sent).tenures, p);
  }

  lemma OtherCoreKept(s: System, c': Core, sent: set<Packet>, n: Id)
    requires LogInv(s) && c'.id in s.nodes && n in s.nodes && n != c'.id
    requires Lawful(s, s.nodes[c'.id], c', sent) && LogLawful(s, s.nodes[c'.id], c', sent)
    ensures CoreInv(Record(s, c', sent), s.nodes[n])
  {
    TenuresExtend(s, c', sent);
    assert CoreInv(s, s.nodes[n]);
    LogOkExtends(s.tenures, Record(s, c', sent).tenures, s.nodes[n].log);
  }

  lemma LeaderTenure(s: System, n: Id)
    requires LogInv(s) && n in s.nodes && s.nodes[n].role == Leader
    ensures
      var c := s.nodes[n];
      c.id == n && c.term in s.tenures && s.tenures[c.term] == Tenure(n, c.log)
  {
    assert CoreInv(s, s.nodes[n]);
  }

  lemma SendIsSlice(tenures: Tenures, c: Core, dst: Id, p: Payload)
    requires c.term in tenures && tenures[c.term] == Tenure(c.id, c.log) && dst != c.id
    requires SendAppendEntriesTo(c, dst) == Some(p)
    ensures SliceOk(tenures, Packet(c.id, dst, p))
  {
    TailIsSlice(tenures, c.log, At(c.nextIndex, dst) - 1, Packet(c.id, dst, p));
  }

  lemma TailIsSlice(tenures: Tenures, log: Log, k: nat, pkt: Packet)
    requires k <= |log| && pkt.payload.AppendEntries? && pkt.payload.prevLogIndex == k && pkt.payload.entries == log[k..]
    requires k > 0 ==> pkt.payload.prevLogTerm == log[k - 1].term
    requires pkt.payload.term in tenures && tenures[pkt.payload.term] == Tenure(pkt.src, log) && pkt.src != pkt.dst
    ensures SliceOk(tenures, pkt)
  {
    TailSlice(log, k);
  }

  lemma TailSlice(log: Log, k: nat)
    requires k <= |log|
    ensures IsSlice(log[k..], log, k)
  {
    assert forall i :: 0 <= i < |log[k..]| ==> log[k..][i] == log[k + i];
  }

  /** Appending to a follower's log, or cutting it, in the message's term. */
  lemma AppendInTermLogs(tenures: Tenures, pkt: Packet, c: Core)
    requires WellFormedAppend(pkt.payload) && SliceOk(tenures, pkt) && SoundTenure(tenures, pkt.payload.term)
    requires Shaped(c) && LogOk(tenures, c.log) && TermsUpTo(c.log, c.term) && c.term == pkt.payload.term
    requires Persisted(c)
    ensures
      var r := AppendInTerm(c, pkt.payload).core;
      Shaped(r) && LogOk(tenures, r.log) && TermsUpTo(r.log, r.term) && r.term == c.term && r.role == c.role
  {
    var p := pkt.payload;
    var r := AppendInTerm(c, p).core;
    AppendInTermEffect(c, p);
    if p.prevLogIndex > LastIndex(c.log) {
      assert r.log == c.log;
    } else if p.prevLogIndex > 0 && c.log[p.prevLogIndex - 1].term != p.prevLogTerm {
      var i := ConflictStart(c.log, p.prevLogIndex, c.log[p.prevLogIndex - 1].term);
      LogOkPrefix(tenures, c.log, i - 1);
      assert r.log == c.log[..i - 1];
    } else {
      AbsorbKeepsLogOk(tenures, pkt, LogPair(c.log, c.disk.logs), false);
      assert r.log == Absorb(LogPair(c.log, c.disk.logs), p.entries, p.prevLogIndex, false).mem;
    }
  }

  lemma AppendLogLawful(s: System, n: Id, pkt: Packet)
    requires LogInv(s) && n in s.nodes && pkt in s.net && pkt.dst == n && WellFormedAppend(pkt.payload)
    ensures
      var a := HandleAppendEntries(s.nodes[n], pkt.payload);
      LogLawful(s, s.nodes[n], a.core, {AppendReply(a, pkt.payload.leaderId)})
  {
    var c, p := s.nodes[n], pkt.payload;
    assert CoreInv(s, c) && SliceOk(s.tenures, pkt);
    if p.term >= c.term {
      var c1 := (if p.term > c.term then SwitchToFollower(c, p.term) else c).(leaderHint := p.leaderId);
      assert NodeInv(s, c);
      // a leader never gets a message of its own term: only itself could have sent it
      assert TenureInv(s, p.term);
      AppendInTermLogs(s.tenures, pkt, c1);
      assert c1.role != Leader;
    }
  }

  /** A step that leaves the log alone. */
  lemma KeptLogLawful(s: System, c': Core, sent: set<Packet>)
    requires LogInv(s) && c'.id in s.nodes
    requires
      var c := s.nodes[c'.id];
      && c'.log == c.log && c'.lastApplied >= 0 && c'.term >= c.term
      && (c'.term == c.term ==> c'.role == c.role || (c.role == Candidate && c'.role == Leader))
      && (c'.term > c.term ==> c'.role != Leader)
    requires forall p :: p in sent ==> SliceOk(s.tenures, p)
    ensures LogLawful(s, s.nodes[c'.id], c', sent)
  {
    assert CoreInv(s, s.nodes[c'.id]);
  }

  lemma ProposeLogLawful(s: System, n: Id, cmd: Command)
    requires LogInv(s) && n in s.nodes && s.nodes[n].role == Leader && Shaped(s.nodes[n])
    ensures LogLawful(s, s.nodes[n], ProposeCommand(s.nodes[n], cmd), {})
  {
  }

  lemma ElectLogLawful(s: System, n: Id)
    requires LogInv(s) && n in s.nodes && EffectOf(s, s.nodes[n], ElectStep(n)).Some?
    ensures var e := EffectOf(s, s.nodes[n], ElectStep(n)).value; LogLawful(s, s.nodes[n], e.core, e.sent)
  {
    var c := s.nodes[n];
    var e := EffectOf(s, c, ElectStep(n)).value;
    assert NodeInv(s, c) && CoreInv(s, c);
    VoteRequestsNameTheSender(StartElection(c), s.peers);
    KeptLogLawful(s, e.core, e.sent);
  }

  lemma VoteLogLawful(s: System, n: Id, pkt: Packet)
    requires LogInv(s) && n in s.nodes && pkt.payload.RequestVote?
    ensures
      var (c', granted) := HandleRequestVote(s.nodes[n], pkt.payload);
      LogLawful(s, s.nodes[n], c', {VoteReply(c', granted, pkt.payload.candidateId)})
  {
    var c := s.nodes[n];
    assert NodeInv(s, c) && CoreInv(s, c);
    HandleRequestVoteEffect(c, pkt.payload);
    var (c', granted) := HandleRequestVote(c, pkt.payload);
    KeptLogLawful(s, c', {VoteReply(c', granted, pkt.payload.candidateId)});
  }

  lemma VoteReplyLogLawful(s: System, n: Id, pkt: Packet)
    requires LogInv(s) && n in s.nodes && pkt.payload.RequestVoteResponse?
    ensures LogLawful(s, s.nodes[n], HandleRequestVoteResponse(s.nodes[n], pkt.payload, s.peers), {})
  {
    assert NodeInv(s, s.nodes[n]) && CoreInv(s, s.nodes[n]);
    HandleRequestVoteResponseEffect(s.nodes[n], pkt.payload, s.peers);
    KeptLogLawful(s, HandleRequestVoteResponse(s.nodes[n], pkt.payload, s.peers), {});
  }

  lemma VotingLogLawful(s: System, step: Step)
    requires LogInv(s) && (step.ElectStep? || step.VoteStep? || step.VoteReplyStep?)
    requires step.node in s.nodes && EffectOf(s, s.nodes[step.node], step).Some?
    ensures
      var e := EffectOf(s, s.nodes[step.node], step).value;
      LogLawful(s, s.nodes[step.node], e.core, e.sent)
  {
    match step {
      case ElectStep(n) => ElectLogLawful(s, n);
      case VoteStep(n, pkt) => VoteLogLawful(s, n, pkt);
      case VoteReplyStep(n, pkt) => VoteReplyLogLawful(s, n, pkt);
    }
  }

  lemma AppendReplyLogLawful(s: System, n: Id, pkt: Packet)
    requires LogInv(s) && n in s.nodes && pkt.payload.AppendEntriesResponse? && s.nodes[n].lastApplied >= 0
    requires HandleAppendEntriesResponse(s.nodes[n], pkt.src, pkt.payload, s.peers).Some?
    ensures LogLawful(s, s.nodes[n], HandleAppendEntriesResponse(s.nodes[n], pkt.src, pkt.payload, s.peers).value, {})
  {
    assert NodeInv(s, s.nodes[n]) && CoreInv(s, s.nodes[n]);
    HandleAppendEntriesResponseEffect(s.nodes[n], pkt.src, pkt.payload, s.peers);
    KeptLogLawful(s, HandleAppendEntriesResponse(s.nodes[n], pkt.src, pkt.payload, s.peers).value, {});
  }

  lemma SentLogLawful(s: System, n: Id, sent: set<Packet>)
    requires LogInv(s) && n in s.nodes && forall p :: p in sent ==> SliceOk(s.tenures, p)
    ensures LogLawful(s, s.nodes[n], s.nodes[n], sent)
  {
    assert CoreInv(s, s.nodes[n]);
  }

  lemma HeartbeatIsSlice(tenures: Tenures, c: Core, dst: Id, commitIndex: int)
    requires c.term in tenures && tenures[c.term] == Tenure(c.id, c.log) && dst != c.id
    ensures SliceOk(tenures, Packet(c.id, dst, SendHeartbeat(c, dst, c.term, commitIndex)))
  {
  }

  lemma AnsweringLogLawful(s: System, step: Step)
    requires LogInv(s) && (step.AppendStep? || step.AppendReplyStep?)
    requires step.node in s.nodes && EffectOf(s, s.nodes[step.node], step).Some?
    ensures
      var e := EffectOf(s, s.nodes[step.node], step).value;
      LogLawful(s, s.nodes[step.node], e.core, e.sent)
  {
    match step {
      case AppendStep(n, pkt) => AppendLogLawful(s, n, pkt);
      case AppendReplyStep(n, pkt) => AppendReplyLogLawful(s, n, pkt);
    }
  }

  /** The store of a core node holds the log it has in memory, and nothing more. */
  ghost predicate Clean(c: Core) {
    Load(c.disk.logs) == c.log
  }

  lemma CrashLogLawful(s: System, n: Id, stored: int)
    requires LogInv(s) && n in s.nodes && Clean(s.nodes[n]) && EffectOf(s, s.nodes[n], CrashStep(n, stored)).Some?
    ensures
      var e := EffectOf(s, s.nodes[n], CrashStep(n, stored)).value;
      LogLawful(s, s.nodes[n], e.core, e.sent)
  {
    assert NodeInv(s, s.nodes[n]) && CoreInv(s, s.nodes[n]);
  }

  // ---------------------------------------------------------------------------
  // One step of a learner
  // ---------------------------------------------------------------------------

  lemma LearnKeepsLogOk(tenures: Tenures, x: L.Learner, pkt: Packet)
    requires WellFormedAppend(pkt.payload) && SliceOk(tenures, pkt) && SoundTenure(tenures, pkt.payload.term)
    requires LearnerInv(tenures, x)
    ensures LearnerInv(tenures, L.HandleAppendEntries(x, pkt.payload).learner)
  {
    var p := pkt.payload;
    var r := L.HandleAppendEntries(x, p).learner;
    L.AppendKeepsLogsAgree(x, p);
    if p.prevLogIndex > |x.log| {
      assert r.log == x.log;
    } else if p.prevLogIndex > 0 && x.log[p.prevLogIndex - 1].term != p.prevLogTerm {
      var i := ConflictStart(x.log, p.prevLogIndex, x.log[p.prevLogIndex - 1].term);
      LogOkPrefix(tenures, x.log, i - 1);
      assert r.log == x.log[..i - 1];
    } else {
      AbsorbKeepsLogOk(tenures, pkt, LogPair(x.log, x.disk.logs), true);
      assert r.log == Absorb(LogPair(x.log, x.disk.logs), p.entries, p.prevLogIndex, true).mem;
    }
  }

  lemma LearnKeepsLearner(s: System, l: Id, pkt: Packet)
    requires LogInv(s) && l in s.learners && pkt in s.net && pkt.payload.AppendEntries?
    requires L.Shaped(s.learners[l]) && WellFormedAppend(pkt.payload)
    ensures LearnerInv(s.tenures, L.HandleAppendEntries(s.learners[l], pkt.payload).learner)
  {
    assert LearnerInv(s.tenures, s.learners[l]);
    assert SliceOk(s.tenures, pkt);
    assert TenureInv(s, pkt.payload.term);
    LearnKeepsLogOk(s.tenures, s.learners[l], pkt);
  }

  lemma LearnerStepKeepsLearners(s: System, s': System, step: Step)
    requires LogInv(s) && Next(s, s', step) && (step.LearnStep? || step.LearnerRestartStep?)
    ensures forall l :: l in s'.learners ==> LearnerInv(s.tenures, s'.learners[l])
  {
    match step {
      case LearnStep(l, pkt) =>
        LearnKeepsLearner(s, l, pkt);
        OneLearnerChanged(s, l, L.HandleAppendEntries(s.learners[l], pkt.payload).learner, s'.learners);
      case LearnerRestartStep(l) =>
        var r := L.Restart(l, s.learners[l].disk).value;
        RestartKeepsLearner(s, l, r);
        OneLearnerChanged(s, l, r, s'.learners);
    }
  }

  lemma OneLearnerChanged(s: System, l: Id, x: L.Learner, after: map<Id, L.Learner>)
    requires LogInv(s) && LearnerInv(s.tenures, x) && after == s.learners[l := x]
    ensures forall k :: k in after ==> LearnerInv(s.tenures, after[k])
  {
  }

  lemma RestartKeepsLearner(s: System, l: Id, r: L.Learner)
    requires LogInv(s) && l in s.learners && L.Restart(l, s.learners[l].disk) == Some(r)
    ensures LearnerInv(s.tenures, r)
  {
    assert LearnerInv(s.tenures, s.learners[l]);
    L.RestartGivesLogBack(s.learners[l], l, r);
  }

  lemma UntouchedKeepsLogInv(s: System, s': System)
    requires LogInv(s) && Config(s') && CoresUntouched(s, s')
    requires forall l :: l in s'.learners ==> LearnerInv(s.tenures, s'.learners[l])
    ensures LogInv(s')
  {
    assert ElectionInv(s') by {
      LearnerStepKeepsInv(s, s');
    }
    forall t | t in s'.tenures ensures TenureInv(s', t) {
      assert TenureInv(s, t);
    }
    forall n | n in s'.nodes ensures CoreInv(s', s'.nodes[n]) {
      assert CoreInv(s, s.nodes[n]);
    }
  }

  lemma LearnerStepKeepsLogInv(s: System, s': System, step: Step)
    requires LogInv(s) && Next(s, s', step) && (step.LearnStep? || step.LearnerRestartStep?)
    ensures LogInv(s')
  {
    LearnerStepFrame(s, s', step);
    LearnerStepKeepsLearners(s, s', step);
    UntouchedKeepsLogInv(s, s');
  }

  // ---------------------------------------------------------------------------
  // Whole runs
  // ---------------------------------------------------------------------------

  /** A core node crashes only where a restart reads back the log it had. */
  ghost predicate CrashesClean(run: seq<System>, steps: seq<Step>) {
    forall i :: 0 <= i < |steps| && i < |run| ==> StepClean(run[i], steps[i])
  }

  ghost predicate StepClean(s: System, step: Step) {
    step.CrashStep? && step.node in s.nodes ==> Clean(s.nodes[step.node])
  }

  lemma LawfulNext(s: System, n: Id, c': Core, sent: set<Packet>)
    requires LogInv(s) && n in s.nodes && c'.id == n
    requires Lawful(s, s.nodes[n], c', sent) && LogLawful(s, s.nodes[n], c', sent)
    ensures LogInv(Record(s, c', sent)) && Extends(s.tenures, Record(s, c', sent).tenures)
  {
    LogLawfulKeepsInv(s, c', sent);
    TenuresExtend(s, c', sent);
  }

  lemma VotingLogNext(s: System, s': System, step: Step)
    requires LogInv(s) && Next(s, s', step) && StepClean(s, step)
    requires step.ElectStep? || step.VoteStep? || step.VoteReplyStep? || step.CrashStep?
    ensures LogInv(s') && Extends(s.tenures, s'.tenures)
  {
    var e := NextIsRecord(s, s', step);
    StepLawful(s, step);
    if step.CrashStep? {
      CrashLogLawful(s, step.node, step.stored);
    } else {
      VotingLogLawful(s, step);
    }
    LawfulNext(s, step.node, e.core, e.sent);
  }

  lemma AnsweringLogNext(s: System, s': System, step: Step)
    requires LogInv(s) && Next(s, s', step) && (step.AppendStep? || step.AppendReplyStep?)
    ensures LogInv(s') && Extends(s.tenures, s'.tenures)
  {
    var e := NextIsRecord(s, s', step);
    StepLawful(s, step);
    AnsweringLogLawful(s, step);
    LawfulNext(s, step.node, e.core, e.sent);
  }

  lemma ProposeLogNext(s: System, s': System, step: Step)
    requires LogInv(s) && Next(s, s', step) && step.ProposeStep?
    ensures LogInv(s') && Extends(s.tenures, s'.tenures)
  {
    var e := NextIsRecord(s, s', step);
    StepLawful(s, step);
    ProposeLogLawful(s, step.node, step.cmd);
    LawfulNext(s, step.node, e.core, e.sent);
  }

  lemma SendSent(s: System, n: Id, dst: Id)
    requires LogInv(s) && n in s.nodes && EffectOf(s, s.nodes[n], SendStep(n, dst)).Some?
    ensures
      var e := EffectOf(s, s.nodes[n], SendStep(n, dst)).value;
      e.core == s.nodes[n] && forall p :: p in e.sent ==> SliceOk(s.tenures, p)
  {
    LeaderTenure(s, n);
    SendIsSlice(s.tenures, s.nodes[n], dst, SendAppendEntriesTo(s.nodes[n], dst).value);
  }

  lemma HeartbeatSent(s: System, n: Id, dst: Id, commitIndex: int)
    requires LogInv(s) && n in s.nodes && EffectOf(s, s.nodes[n], HeartbeatStep(n, dst, commitIndex)).Some?
    ensures
      var e := EffectOf(s, s.nodes[n], HeartbeatStep(n, dst, commitIndex)).value;
      e.core == s.nodes[n] && forall p :: p in e.sent ==> SliceOk(s.tenures, p)
  {
    LeaderTenure(s, n);
    HeartbeatIsSlice(s.tenures, s.nodes[n], dst, commitIndex);
  }

  /** A leader's message is sent in the term it leads. */
  lemma SendLogNext(s: System, s': System, step: Step)
    requires LogInv(s) && Next(s, s', step) && (step.SendStep? || step.HeartbeatStep?)
    ensures LogInv(s') && Extends(s.tenures, s'.tenures)
  {
    var e := NextIsRecord(s, s', step);
    StepLawful(s, step);
    match step {
      case SendStep(n, dst) => SendSent(s, n, dst);
      case HeartbeatStep(n, dst, commitIndex) => HeartbeatSent(s, n, dst, commitIndex);
    }
    SentLogLawful(s, step.node, e.sent);
    LawfulNext(s, step.node, e.core, e.sent);
  }

  lemma LogNext(s: System, s': System, step: Step)
    requires LogInv(s) && Next(s, s', step) && StepClean(s, step)
    ensures LogInv(s') && Extends(s.tenures, s'.tenures)
  {
    if step.LearnStep? || step.LearnerRestartStep? {
      LearnerStepKeepsLogInv(s, s', step);
      assert s'.tenures == s.tenures;
    } else if step.ElectStep? || step.VoteStep? || step.VoteReplyStep? || step.CrashStep? {
      VotingLogNext(s, s', step);
    } else if step.AppendStep? || step.AppendReplyStep? {
      AnsweringLogNext(s, s', step);
    } else if step.ProposeStep? {
      ProposeLogNext(s, s', step);
    } else {
      SendLogNext(s, s', step);
    }
  }

  lemma {:induction false} LogRun(run: seq<System>, steps: seq<Step>, k: nat)
    requires Run(run, steps) && CrashesClean(run, steps) && k < |run|
    ensures LogInv(run[k])
  {
    if k == 0 {
      ElectionRun(run, steps, 0);
      assert run[0].tenures == map[];
    } else {
      LogRun(run, steps, k - 1);
      LogNext(run[k - 1], run[k], steps[k - 1]);
    }
  }

  lemma TenuresExtendOnce(run: seq<System>, steps: seq<Step>, k: nat)
    requires Run(run, steps) && CrashesClean(run, steps) && k + 1 < |run|
    ensures Extends(run[k].tenures, run[k + 1].tenures)
  {
    LogRun(run, steps, k);
    LogNext(run[k], run[k + 1], steps[k]);
  }

  lemma {:induction false} ChainExtends(ts: seq<Tenures>, i: nat, j: nat)
    requires i <= j < |ts| && forall k :: 0 <= k < |ts| - 1 ==> Extends(ts[k], ts[k + 1])
    ensures Extends(ts[i], ts[j])
    decreases j - i
  {
    if i < j {
      ChainExtends(ts, i, j - 1);
      assert Extends(ts[j - 1], ts[j - 1 + 1]);
      ExtendsTransitive(ts[i], ts[j - 1], ts[j]);
    }
  }

  lemma TenuresExtendOverRun(run: seq<System>, steps: seq<Step>, i: nat, j: nat)
    requires Run(run, steps) && CrashesClean(run, steps) && i <= j < |run|
    ensures Extends(run[i].tenures, run[j].tenures)
  {
    var ts := seq(|run|, k requires 0 <= k < |run| => run[k].tenures);
    forall k | 0 <= k < |ts| - 1 ensures Extends(ts[k], ts[k + 1]) {
      TenuresExtendOnce(run, steps, k);
    }
    ChainExtends(ts, i, j);
  }

  /** `log` is the log of some core node or learner, or the last log of some past leader. */
  ghost predicate Held(s: System, log: Log) {
    || (exists n :: n in s.nodes && s.nodes[n].log == log)
    || (exists l :: l in s.learners && s.learners[l].log == log)
    || (exists t :: t in s.tenures && s.tenures[t].log == log)
  }

  lemma HeldIsOk(s: System, log: Log)
    requires LogInv(s) && Held(s, log)
    ensures WellIndexed(log) && LogOk(s.tenures, log)
  {
    if n :| n in s.nodes && s.nodes[n].log == log {
      assert CoreInv(s, s.nodes[n]);
    } else if l :| l in s.learners && s.learners[l].log == log {
      assert LearnerInv(s.tenures, s.learners[l]);
    } else {
      var t :| t in s.tenures && s.tenures[t].log == log;
      assert TenureInv(s, t);
    }
  }

  /**
   * Entries with the same index and term, in any two logs held anywhere at any two moments of a run, are preceded by
   * the same entries and are the same themselves.
   */
  lemma LogMatching(run: seq<System>, steps: seq<Step>, i: nat, j: nat, a: Log, b: Log, x: nat, y: nat)
    requires Run(run, steps) && CrashesClean(run, steps) && i <= j < |run|
    requires Held(run[i], a) && Held(run[j], b)
    requires x < |a| && y < |b| && a[x].index == b[y].index && a[x].term == b[y].term
    ensures x == y && a[..x + 1] == b[..y + 1]
  {
    LogRun(run, steps, i);
    LogRun(run, steps, j);
    HeldIsOk(run[i], a);
    HeldIsOk(run[j], b);
    TenuresExtendOverRun(run, steps, i, j);
    LogOkExtends(run[i].tenures, run[j].tenures, a);
    LogOkMatching(run[j].tenures, a, b);
  }

  /**
   * The same for a message in flight: where it shares an entry with a log, everything the message says up to there,
   * its previous term included, is what the log says.
   */
  lemma InFlightMatching(run: seq<System>, steps: seq<Step>, k: nat, pkt: Packet, log: Log, x: nat, y: nat)
    requires Run(run, steps) && CrashesClean(run, steps) && k < |run|
    requires pkt in run[k].net && pkt.payload.AppendEntries? && Held(run[k], log)
    requires x < |log| && y < |pkt.payload.entries|
    requires log[x].index == pkt.payload.entries[y].index && log[x].term == pkt.payload.entries[y].term
    ensures
      var p := pkt.payload;
      && 0 <= p.prevLogIndex <= x && x == p.prevLogIndex + y
      && log[p.prevLogIndex..x + 1] == p.entries[..y + 1]
      && (p.prevLogIndex > 0 ==> log[p.prevLogIndex - 1].term == p.prevLogTerm)
  {
    LogRun(run, steps, k);
    HeldIsOk(run[k], log);
    SliceIsWellFormed(run[k], pkt);
    assert TenureInv(run[k], pkt.payload.term) by {
      assert SliceOk(run[k].tenures, pkt);
    }
    InFlightMatchingNow(run[k].tenures, pkt, log, x, y);
  }

  lemma InFlightMatchingNow(tenures: Tenures, pkt: Packet, log: Log, x: nat, y: nat)
    requires WellFormedAppend(pkt.payload) && SliceOk(tenures, pkt) && SoundTenure(tenures, pkt.payload.term)
    requires WellIndexed(log) && LogOk(tenures, log)
    requires x < |log| && y < |pkt.payload.entries|
    requires log[x].index == pkt.payload.entries[y].index && log[x].term == pkt.payload.entries[y].term
    ensures
      var p := pkt.payload;
      && 0 <= p.prevLogIndex <= x && x == p.prevLogIndex + y
      && log[p.prevLogIndex..x + 1] == p.entries[..y + 1]
      && (p.prevLogIndex > 0 ==> log[p.prevLogIndex - 1].term == p.prevLogTerm)
  {
    var p := pkt.payload;
    var c := tenures[p.term].log;
    SliceEqual(p.entries, c, p.prevLogIndex);
    assert p.entries[y] == c[p.prevLogIndex + y];
    LogOkMatching(tenures, log, c);
    SliceOfMatching(log, c, p.prevLogIndex, p.prevLogIndex + |p.entries|, x);
  }

  lemma SliceOfMatching(log: Log, c: Log, prev: nat, end: nat, x: nat)
    requires Matching(log, c) && prev <= x < end <= |c| && x < |log| && log[x].term == c[x].term
    ensures log[prev..x + 1] == c[prev..end][..x - prev + 1]
    ensures prev > 0 ==> log[prev - 1] == c[prev - 1]
  {
    assert log[..x + 1] == c[..x + 1];
    assert log[prev..x + 1] == log[..x + 1][prev..];
    assert c[prev..end][..x - prev + 1] == c[..x + 1][prev..];
    if prev > 0 {
      assert log[..x + 1][prev - 1] == c[..x + 1][prev - 1];
    }
  }

  /** In every log, entry `i` sits at index `i + 1`, and terms never decrease. */
  lemma LogsAreOrdered(run: seq<System>, steps: seq<Step>, k: nat, log: Log)
    requires Run(run, steps) && CrashesClean(run, steps) && k < |run| && Held(run[k], log)
    ensures forall i :: 0 <= i < |log| ==> log[i].index == i + 1
    ensures forall i, j :: 0 <= i < j < |log| ==> log[i].term <= log[j].term
  {
    var s := run[k];
    LogRun(run, steps, k);
    HeldIsOk(s, log);
    forall i, j | 0 <= i < j < |log|
      ensures log[i].term <= log[j].term
    {
      assert EntryOk(s.tenures, log, j);
      var t := log[j].term;
      assert TenureInv(s, t);
      assert log[i] == log[..j + 1][i] == s.tenures[t].log[i];
    }
  }

  /** A leader's log only grows while it leads. */
  lemma LeaderAppendOnly(run: seq<System>, steps: seq<Step>, i: nat, j: nat, n: Id)
    requires Run(run, steps) && CrashesClean(run, steps) && i <= j < |run|
    requires n in run[i].nodes && n in run[j].nodes
    requires run[i].nodes[n].role == Leader && run[j].nodes[n].role == Leader
    requires run[i].nodes[n].term == run[j].nodes[n].term
    ensures run[i].nodes[n].log <= run[j].nodes[n].log
  {
    LogRun(run, steps, i);
    LogRun(run, steps, j);
    TenuresExtendOverRun(run, steps, i, j);
    assert CoreInv(run[i], run[i].nodes[n]) && CoreInv(run[j], run[j].nodes[n]);
  }
}
