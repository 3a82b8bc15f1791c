/**
 * Over every run, crashes included, logs stay gap-free in memory and on disk and AppendEntries messages stay
 * contiguous, so no handler of either kind ever indexes a log outside its bounds while taking one in.
 */
module RaftShape {
  import opened Common
  import opened RaftTypes
  import opened RaftLog
  import opened RaftNode
  import opened RaftSystem
  import opened RaftElection
  import opened Selection
  import L = LearnerNode

  ghost predicate CoreShape(c: Core) {
    Shaped(c) && Persisted(c) && exists n: nat :: StoredCovers(LogPair(c.log, c.disk.logs), n)
  }

  ghost predicate PacketShape(p: Packet) {
    p.payload.AppendEntries? ==> WellFormedAppend(p.payload)
  }

  ghost predicate AllShaped(s: System) {
    && (forall n :: n in s.nodes ==> CoreShape(s.nodes[n]))
    && (forall l :: l in s.learners ==> L.LogsAgree(s.learners[l]))
    && (forall p :: p in s.net ==> PacketShape(p))
  }

  lemma RecordShape(s: System, c': Core, sent: set<Packet>)
    requires AllShaped(s) && CoreShape(c') && forall p :: p in sent ==> PacketShape(p)
    ensures AllShaped(Record(s, c', sent))
  {
  }

  lemma SameLogShape(c: Core, r: Core)
    requires CoreShape(c) && r.log == c.log && r.disk.logs == c.disk.logs && r.lastApplied >= 0 && Persisted(r)
    ensures CoreShape(r)
  {
  }

  lemma TruncateCovers(p: LogPair, n: nat, i: int)
    requires StoredCovers(p, n) && 1 <= i <= |p.mem|
    ensures StoredCovers(LogPair(p.mem[..i - 1], DeletedFrom(p.stored, i)), i - 1)
  {
  }

  lemma AppendInTermShape(c: Core, p: Payload)
    requires CoreShape(c) && WellFormedAppend(p)
    ensures CoreShape(AppendInTerm(c, p).core)
  {
    var lp, r := LogPair(c.log, c.disk.logs), AppendInTerm(c, p).core;
    var n: nat :| StoredCovers(lp, n);
    AppendInTermEffect(c, p);
    if p.prevLogIndex > LastIndex(c.log) {
      assert r == c;
    } else if p.prevLogIndex > 0 && c.log[p.prevLogIndex - 1].term != p.prevLogTerm {
      var i := ConflictStart(c.log, p.prevLogIndex, c.log[p.prevLogIndex - 1].term);
      TruncateCovers(lp, n, i);
      assert LogPair(r.log, r.disk.logs) == LogPair(c.log[..i - 1], DeletedFrom(c.disk.logs, i));
    } else {
      AbsorbCovers(lp, p.entries, p.prevLogIndex, n);
      assert LogPair(r.log, r.disk.logs) == Absorb(lp, p.entries, p.prevLogIndex, false);
    }
  }

  lemma AppendShape(c: Core, p: Payload)
    requires CoreShape(c) && WellFormedAppend(p)
    ensures CoreShape(HandleAppendEntries(c, p).core)
  {
    if p.term >= c.term {
      var c1 := (if p.term > c.term then SwitchToFollower(c, p.term) else c).(leaderHint := p.leaderId);
      SameLogShape(c, c1);
      AppendInTermShape(c1, p);
    }
  }

  lemma ProposeShape(c: Core, cmd: Command)
    requires CoreShape(c)
    ensures CoreShape(ProposeCommand(c, cmd))
  {
    var n: nat :| StoredCovers(LogPair(c.log, c.disk.logs), n);
    var r := ProposeCommand(c, cmd);
    assert c.role == Leader ==> StoredCovers(LogPair(r.log, r.disk.logs), Max(n, |r.log|));
  }

  lemma RestartShape(c: Core, id: Id, disk: Disk, r: Core)
    requires CoreShape(c) && disk.logs == c.disk.logs && Restart(id, disk) == Some(r)
    ensures CoreShape(r)
  {
    var n: nat :| StoredCovers(LogPair(c.log, c.disk.logs), n);
    LoadCovers(disk.logs, n);
    BootedKeepsDisk(id, disk, r);
    assert StoredCovers(LogPair(r.log, r.disk.logs), n);
  }

  lemma LoadCovers(logs: map<nat, Entry>, n: nat)
    requires Dense(logs, n)
    ensures StoredCovers(LogPair(Load(logs), logs), n)
  {
    LoadDense(logs, n);
  }

  lemma BootedKeepsDisk(id: Id, disk: Disk, r: Core)
    requires Restart(id, disk) == Some(r)
    ensures r.log == Load(disk.logs) && r.disk.logs == disk.logs
    ensures Persisted(r) && r.lastApplied >= 0
  {
  }

  lemma SendShape(c: Core, dst: Id)
    requires Shaped(c)
    ensures SendAppendEntriesTo(c, dst).Some? ==> WellFormedAppend(SendAppendEntriesTo(c, dst).value)
  {
    var next := At(c.nextIndex, dst);
    if 1 <= next <= |c.log| + 1 {
      TailFollows(c.log, next - 1);
    }
  }

  lemma TailFollows(log: Log, k: nat)
    requires WellIndexed(log) && k <= |log|
    ensures Follows(log[k..], k)
  {
  }

  lemma VotingShape(s: System, step: Step)
    requires AllShaped(s) && (step.ElectStep? || step.VoteStep? || step.VoteReplyStep?)
    requires step.node in s.nodes && EffectOf(s, s.nodes[step.node], step).Some?
    ensures
      var e := EffectOf(s, s.nodes[step.node], step).value;
      CoreShape(e.core) && forall p :: p in e.sent ==> PacketShape(p)
  {
    var c := s.nodes[step.node];
    var e := EffectOf(s, c, step).value;
    assert CoreShape(c);
    match step {
      case ElectStep(_) =>
        VoteRequestsNameTheSender(StartElection(c), s.peers);
        SameLogShape(c, e.core);
      case VoteStep(_, pkt) =>
        HandleRequestVoteEffect(c, pkt.payload);
        SameLogShape(c, e.core);
      case VoteReplyStep(_, pkt) =>
        HandleRequestVoteResponseEffect(c, pkt.payload, s.peers);
        SameLogShape(c, e.core);
    }
  }

  lemma StepShape(s: System, step: Step)
    requires AllShaped(s) && !step.LearnStep? && !step.LearnerRestartStep?
    requires step.node in s.nodes && EffectOf(s, s.nodes[step.node], step).Some?
    ensures
      var e := EffectOf(s, s.nodes[step.node], step).value;
      CoreShape(e.core) && forall p :: p in e.sent ==> PacketShape(p)
  {
    var c := s.nodes[step.node];
    var e := EffectOf(s, c, step).value;
    assert CoreShape(c);
    match step {
      case ElectStep(_) => VotingShape(s, step);
      case VoteStep(_, _) => VotingShape(s, step);
      case VoteReplyStep(_, _) => VotingShape(s, step);
      case AppendStep(_, pkt) => AppendShape(c, pkt.payload);
      case AppendReplyStep(_, pkt) =>
        HandleAppendEntriesResponseEffect(c, pkt.src, pkt.payload, s.peers);
        SameLogShape(c, e.core);
      case ProposeStep(_, cmd) => ProposeShape(c, cmd);
      case SendStep(_, dst) => SendShape(c, dst);
      case HeartbeatStep(_, _, _) =>
      case CrashStep(n, stored) => CrashShape(s, n, stored);
    }
  }

  lemma CrashShape(s: System, n: Id, stored: int)
    requires n in s.nodes && CoreShape(s.nodes[n]) && EffectOf(s, s.nodes[n], CrashStep(n, stored)).Some?
    ensures CoreShape(EffectOf(s, s.nodes[n], CrashStep(n, stored)).value.core)
  {
    var c := s.nodes[n];
    var m := c.disk.LoadMeta();
    var disk := if stored > c.term then c.disk.(meta := Some(Meta(stored, "", m.commitIndex, m.lastApplied))) else c.disk;
    RestartShape(c, n, disk, EffectOf(s, c, CrashStep(n, stored)).value.core);
  }

  lemma LearnerStepShape(s: System, s': System, step: Step)
    requires AllShaped(s) && Next(s, s', step) && (step.LearnStep? || step.LearnerRestartStep?)
    ensures forall l :: l in s'.learners ==> L.LogsAgree(s'.learners[l])
  {
    match step {
      case LearnStep(l, pkt) =>
        var r := L.HandleAppendEntries(s.learners[l], pkt.payload).learner;
        L.AppendKeepsLogsAgree(s.learners[l], pkt.payload);
        OneLearnerShaped(s, l, r, s'.learners);
      case LearnerRestartStep(l) =>
        var r := L.Restart(l, s.learners[l].disk).value;
        L.RestartGivesLogBack(s.learners[l], l, r);
        OneLearnerShaped(s, l, r, s'.learners);
    }
  }

  lemma OneLearnerShaped(s: System, l: Id, x: L.Learner, after: map<Id, L.Learner>)
    requires AllShaped(s) && L.LogsAgree(x) && after == s.learners[l := x]
    ensures forall k :: k in after ==> L.LogsAgree(after[k])
  {
  }

  lemma ShapeNext(s: System, s': System, step: Step)
    requires AllShaped(s) && Next(s, s', step)
    ensures AllShaped(s')
  {
    if step.LearnStep? || step.LearnerRestartStep? {
      LearnerStepShape(s, s', step);
    } else {
      var e := NextIsRecord(s, s', step);
      StepShape(s, step);
      RecordShape(s, e.core, e.sent);
    }
  }

  lemma {:induction false} ShapeRun(run: seq<System>, steps: seq<Step>, k: nat)
    requires Run(run, steps) && k < |run|
    ensures AllShaped(run[k])
  {
    if k == 0 {
      forall n | n in run[0].nodes ensures CoreShape(run[0].nodes[n]) {
        assert StoredCovers(LogPair([], map[]), 0);
      }
    } else {
      ShapeRun(run, steps, k - 1);
      ShapeNext(run[k - 1], run[k], steps[k - 1]);
    }
  }

  /** The two logs after a message, in memory and on disk. */
  function LogsAfter(c: Core, p: Payload): LogPair
    requires Shaped(c) && WellFormedAppend(p)
  {
    var lp := LogPair(c.log, c.disk.logs);
    if p.term < c.term || p.prevLogIndex > |c.log| then lp
    else if p.prevLogIndex > 0 && c.log[p.prevLogIndex - 1].term != p.prevLogTerm then
      var i := ConflictStart(c.log, p.prevLogIndex, c.log[p.prevLogIndex - 1].term);
      LogPair(c.log[..i - 1], DeletedFrom(c.disk.logs, i))
    else Absorb(lp, p.entries, p.prevLogIndex, false)
  }

  lemma LogsAfterInTerm(c: Core, p: Payload)
    requires Shaped(c) && WellFormedAppend(p) && p.term >= c.term
    ensures var r := AppendInTerm(c, p).core; LogPair(r.log, r.disk.logs) == LogsAfter(c, p)
  {
  }

  lemma LogsAfterMessage(c: Core, p: Payload)
    requires Shaped(c) && WellFormedAppend(p)
    ensures var r := HandleAppendEntries(c, p).core; LogPair(r.log, r.disk.logs) == LogsAfter(c, p)
  {
    if p.term >= c.term {
      var c1 := (if p.term > c.term then SwitchToFollower(c, p.term) else c).(leaderHint := p.leaderId);
      LogsAfterInTerm(c1, p);
    }
  }

  lemma TruncatedReloads(lp: LogPair, n: nat, i: int)
    requires StoredCovers(lp, n) && 1 <= i <= |lp.mem|
    ensures Load(DeletedFrom(lp.stored, i)) == lp.mem[..i - 1]
  {
    var q := LogPair(lp.mem[..i - 1], DeletedFrom(lp.stored, i));
    TruncateCovers(lp, n, i);
    CoversInStep(q, i - 1);
    CoversLoad(q, i - 1);
  }

  lemma UntouchedReloadsIff(lp: LogPair, n: nat)
    requires StoredCovers(lp, n)
    ensures Load(lp.stored) == lp.mem <==> n <= |lp.mem|
  {
    CoversInStep(lp, n);
    CoversLoad(lp, n);
  }

  /**
   * A core node that handled a message and then restarts has the log it had exactly when its last stored index, `n`
   * before the message, is no longer beyond that log: a node whose log ended below `n` mends this only by a message that
   * reaches up to `n`, or one that fails the consistency check and so deletes from disk as well.
   */
  lemma RestartAfterMessageIff(c: Core, p: Payload, n: nat)
    requires Shaped(c) && StoredCovers(LogPair(c.log, c.disk.logs), n) && WellFormedAppend(p)
    ensures
      var r := HandleAppendEntries(c, p).core;
      Load(r.disk.logs) == r.log
      <==> if p.term < c.term || p.prevLogIndex > |c.log| then n <= |c.log|
           else if p.prevLogIndex > 0 && c.log[p.prevLogIndex - 1].term != p.prevLogTerm then true
           else n <= if AllKnown(c.log, p.entries, p.prevLogIndex) then |c.log| else p.prevLogIndex + |p.entries|
  {
    var lp := LogPair(c.log, c.disk.logs);
    LogsAfterMessage(c, p);
    if p.term < c.term || p.prevLogIndex > |c.log| {
      UntouchedReloadsIff(lp, n);
    } else if p.prevLogIndex > 0 && c.log[p.prevLogIndex - 1].term != p.prevLogTerm {
      TruncatedReloads(lp, n, ConflictStart(c.log, p.prevLogIndex, c.log[p.prevLogIndex - 1].term));
    } else {
      CoreReloadsItsLogIff(lp, p.entries, p.prevLogIndex, n);
    }
  }

  /** An AppendEntries message that arrives can be handled: no log access in the handler is out of bounds. */
  lemma AppendEntriesNeverPanics(run: seq<System>, steps: seq<Step>, k: nat, pkt: Packet)
    requires Run(run, steps) && k < |run|
    requires pkt in run[k].net && pkt.payload.AppendEntries?
    ensures pkt.dst in run[k].nodes ==>
      EffectOf(run[k], run[k].nodes[pkt.dst], AppendStep(pkt.dst, pkt)).Some?
    ensures pkt.dst in run[k].learners ==>
      exists s' :: Next(run[k], s', LearnStep(pkt.dst, pkt))
  {
    var s := run[k];
    ShapeRun(run, steps, k);
    assert PacketShape(pkt);
    if pkt.dst in s.nodes {
      assert CoreShape(s.nodes[pkt.dst]);
    }
    if pkt.dst in s.learners {
      assert L.LogsAgree(s.learners[pkt.dst]);
      var a := L.HandleAppendEntries(s.learners[pkt.dst], pkt.payload);
      assert Next(s, s.(learners := s.learners[pkt.dst := a.learner],
                        net := s.net + {L.AppendReply(a, pkt.payload.leaderId)}), LearnStep(pkt.dst, pkt));
    }
  }

  predicate AboutLearner(cmd: Command, id: Id) {
    (cmd.op == AddLearner || cmd.op == AddLearnerWithSnapshot || cmd.op == RemoveLearner) && cmd.key == id
  }

  /** No entry still to be applied is about `id` as a learner. */
  ghost predicate NoneAbout(c: Core, id: Id) {
    forall i :: 0 <= c.lastApplied <= i < |c.log| ==> !AboutLearner(c.log[i].command, id)
  }

  lemma {:induction false} ApplyKeepsNext(c: Core, id: Id)
    requires c.lastApplied >= 0 && c.commitIndex <= |c.log| && NoneAbout(c, id)
    ensures At(Apply(c).nextIndex, id) == At(c.nextIndex, id)
    decreases c.commitIndex - c.lastApplied
  {
    if c.lastApplied < c.commitIndex {
      assert !AboutLearner(c.log[c.lastApplied].command, id);
      ApplyKeepsNext(ApplyNext(c), id);
    }
  }

  lemma AdvanceKeepsNext(c: Core, id: Id, peers: seq<Id>)
    requires c.lastApplied >= 0 && NoneAbout(c, id)
    ensures
      var r := AdvanceCommitIndex(c, peers);
      r.Some? ==> r.value.log == c.log && At(r.value.nextIndex, id) == At(c.nextIndex, id)
  {
    var indexes := MatchIndexes(c, peers);
    var n := Kth(indexes, |indexes| / 2);
    if c.commitIndex < n && 0 < n <= |c.log| && c.log[n - 1].term == c.term {
      ApplyKeepsNext(c.(commitIndex := n), id);
    }
  }

  /**
   * Sending is different: a success reply reports the follower's own last index. Whatever the reply commits, the next
   * `sendAppendEntriesTo` for this follower indexes out of bounds exactly when that index is beyond the leader's log.
   */
  lemma LongerFollowerStopsSending(c: Core, src: Id, p: Payload, peers: seq<Id>)
    requires c.lastApplied >= 0 && c.role == Leader && NoneAbout(c, src)
    requires p.AppendEntriesResponse? && p.success && p.term == c.term && p.commitIndex > 0
    ensures
      var r := HandleAppendEntriesResponse(c, src, p, peers);
      r.Some? ==> (SendAppendEntriesTo(r.value, src) == None <==> p.commitIndex > |c.log|)
  {
    AdvanceKeepsNext(c.(matchIndex := c.matchIndex[src := p.commitIndex], nextIndex := c.nextIndex[src := p.commitIndex + 1]),
                     src, peers);
  }

  function ProposeAll(c: Core, cmds: seq<Command>): (r: Core)
    requires WellIndexed(c.log)
    ensures WellIndexed(r.log)
    decreases |cmds|
  {
    if cmds == [] then c else ProposeCommand(ProposeAll(c, cmds[..|cmds| - 1]), cmds[|cmds| - 1])
  }

  /** Proposals alone mend it, and exactly when they take the leader's log as far as that index. */
  lemma {:induction false} SendingResumesIff(c: Core, dst: Id, cmds: seq<Command>)
    requires WellIndexed(c.log) && c.role == Leader && At(c.nextIndex, dst) >= 1
    ensures
      var r := ProposeAll(c, cmds);
      && r.role == Leader && r.nextIndex == c.nextIndex && |r.log| == |c.log| + |cmds|
      && (SendAppendEntriesTo(r, dst).Some? <==> At(c.nextIndex, dst) - 1 <= |c.log| + |cmds|)
    decreases |cmds|
  {
    if cmds != [] {
      SendingResumesIff(c, dst, cmds[..|cmds| - 1]);
    }
  }
}
