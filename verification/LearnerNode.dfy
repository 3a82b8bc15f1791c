/** An ordinary learner (core/Learner.go): its AppendEntries handler, its recovery, and why its stored log can be trusted. */
module LearnerNode {
  import opened Common
  import opened RaftTypes
  import opened RaftLog

  datatype Learner = Learner(
    id: Id,
    term: int,
    log: Log,
    commitIndex: int,
    lastApplied: int,
    leaderHint: Id,
    disk: Disk)

  ghost predicate Shaped(l: Learner) {
    WellIndexed(l.log) && l.lastApplied >= 0
  }

  function SaveMeta(l: Learner): Learner {
    l.(disk := l.disk.(meta := Some(Meta(l.term, "", l.commitIndex, l.lastApplied))))
  }

  function ApplyNext(l: Learner): Learner
    requires 0 <= l.lastApplied < |l.log|
  {
    l.(lastApplied := l.lastApplied + 1,
       disk := l.disk.(state := ApplyCommand(l.disk.state, l.log[l.lastApplied].command)))
  }

  /** The loop of `applyLogToStateMachine`, without the metadata it saves at the end. */
  function ApplyLoop(l: Learner): (r: Learner)
    requires l.lastApplied >= 0 && l.commitIndex <= |l.log|
    ensures r == l.(lastApplied := Max(l.lastApplied, l.commitIndex), disk := r.disk)
    ensures r.disk == l.disk.(state := r.disk.state)
    decreases l.commitIndex - l.lastApplied
  {
    if l.lastApplied < l.commitIndex then ApplyLoop(ApplyNext(l)) else l
  }

  function TurnPast(l: Learner): seq<Disk>
    requires 0 <= l.lastApplied < |l.log|
  {
    if Writes(l.log[l.lastApplied].command) then [l.disk] else []
  }

  /** What is on disk before each write of that loop. */
  function LoopPast(l: Learner): seq<Disk>
    requires l.lastApplied >= 0 && l.commitIndex <= |l.log|
    decreases l.commitIndex - l.lastApplied
  {
    if l.lastApplied < l.commitIndex
    then TurnPast(l) + LoopPast(ApplyNext(l))
    else []
  }

  function ApplyPast(l: Learner): seq<Disk>
    requires l.lastApplied >= 0 && l.commitIndex <= |l.log|
  {
    LoopPast(l) + [ApplyLoop(l).disk]
  }

  function Apply(l: Learner): Learner
    requires l.lastApplied >= 0 && l.commitIndex <= |l.log|
  {
    SaveMeta(ApplyLoop(l))
  }

  lemma {:induction false} ApplyRunsEntries(l: Learner)
    requires 0 <= l.lastApplied <= l.commitIndex <= |l.log|
    ensures ApplyLoop(l).disk.state == ApplyEntries(l.disk.state, l.log[l.lastApplied..l.commitIndex])
    decreases l.commitIndex - l.lastApplied
  {
    if l.lastApplied < l.commitIndex {
      ApplyRunsEntries(ApplyNext(l));
      assert l.log[l.lastApplied..l.commitIndex][1..] == l.log[l.lastApplied + 1..l.commitIndex];
    }
  }

  datatype Appended = Appended(learner: Learner, success: bool, conflictTerm: int, conflictIndex: int)

  function Greet(l: Learner, p: Payload): Learner
    requires p.AppendEntries?
  {
    if p.term >= l.term then l.(term := p.term, leaderHint := p.leaderId) else l
  }

  function HandleAppendEntries(l: Learner, p: Payload): Appended
    requires Shaped(l) && WellFormedAppend(p)
  {
    var l1 := Greet(l, p);
    if p.prevLogIndex > |l1.log| then Appended(l1, false, 0, |l1.log| + 1)
    else if p.prevLogIndex > 0 && l1.log[p.prevLogIndex - 1].term != p.prevLogTerm then
      var t := l1.log[p.prevLogIndex - 1].term;
      var i := ConflictStart(l1.log, p.prevLogIndex, t);
      Appended(l1.(log := l1.log[..i - 1], disk := l1.disk.(logs := DeletedFrom(l1.disk.logs, i))), false, t, i)
    else
      var q := Absorb(LogPair(l1.log, l1.disk.logs), p.entries, p.prevLogIndex, true);
      var l2 := l1.(log := q.mem, disk := l1.disk.(logs := q.stored));
      Appended(FollowCommit(l2, p.leaderCommit), true, 0, |l2.log|)
  }

  function FollowCommit(l: Learner, leaderCommit: int): (r: Learner)
    requires l.lastApplied >= 0
    ensures r == l.(commitIndex := r.commitIndex, lastApplied := r.lastApplied, disk := r.disk)
    ensures r.disk.logs == l.disk.logs && r.lastApplied >= l.lastApplied
  {
    if leaderCommit > l.commitIndex
    then SaveMeta(Apply(l.(commitIndex := Min(leaderCommit, |l.log|))))
    else l
  }

  function FollowPast(l: Learner, leaderCommit: int): seq<Disk>
    requires l.lastApplied >= 0
  {
    var l' := l.(commitIndex := Min(leaderCommit, |l.log|));
    if leaderCommit > l.commitIndex then ApplyPast(l') + [Apply(l').disk] else []
  }

  function AppendReply(a: Appended, leaderId: Id): Packet {
    Packet(a.learner.id, leaderId,
           AppendEntriesResponse(a.learner.term, a.success, leaderId, a.conflictTerm, a.conflictIndex, |a.learner.log|))
  }

  /** What `NewLearnerClient` reads back from the disk. */
  ghost function Booted(id: Id, disk: Disk): Learner {
    var m := disk.LoadMeta();
    Learner(id, m.term, Load(disk.logs), m.commitIndex, m.lastApplied, "", disk)
  }

  /** `NewLearnerClient`; `None` when re-applying runs past the stored log. */
  ghost function Restart(id: Id, disk: Disk): Option<Learner> {
    var l := Booted(id, disk);
    if l.lastApplied < 0 || (l.commitIndex > l.lastApplied && l.commitIndex > |l.log|) then None
    else if l.commitIndex > l.lastApplied then Some(Apply(l))
    else Some(l)
  }

  /** What is on disk before each write of it. */
  ghost function RestartPast(id: Id, disk: Disk): seq<Disk> {
    var l := Booted(id, disk);
    if 0 <= l.lastApplied < l.commitIndex <= |l.log| then ApplyPast(l) else []
  }

  // ---------------------------------------------------------------------------
  // Agreement of the stored log with the one in memory
  // ---------------------------------------------------------------------------

  ghost predicate LogsAgree(l: Learner) {
    && Shaped(l)
    && InStep(LogPair(l.log, l.disk.logs))
  }

  lemma AppendKeepsLogsAgree(l: Learner, p: Payload)
    requires LogsAgree(l) && WellFormedAppend(p)
    ensures LogsAgree(HandleAppendEntries(l, p).learner)
  {
    var l1 := Greet(l, p);
    var lp := LogPair(l1.log, l1.disk.logs);
    var a := HandleAppendEntries(l, p);
    if p.prevLogIndex > |l1.log| {
      assert a.learner == l1;
    } else if p.prevLogIndex > 0 && l1.log[p.prevLogIndex - 1].term != p.prevLogTerm {
      TruncateInStep(lp, ConflictStart(l1.log, p.prevLogIndex, l1.log[p.prevLogIndex - 1].term));
    } else {
      var q := Absorb(lp, p.entries, p.prevLogIndex, true);
      AbsorbInStep(lp, p.entries, p.prevLogIndex);
      assert LogPair(a.learner.log, a.learner.disk.logs) == q;
    }
  }

  /** A learner's life: messages handled one after the other, with restarts in between. */
  datatype Event = Message(payload: Payload) | Reboot

  ghost predicate Life(ls: seq<Learner>, events: seq<Event>) {
    && |ls| == |events| + 1
    && Shaped(ls[0]) && ls[0].log == [] && ls[0].disk.logs == map[]
    && (forall i :: 0 <= i < |events| ==> LifeStep(ls[i], ls[i + 1], events[i]))
  }

  ghost predicate LifeStep(l: Learner, l': Learner, e: Event) {
    match e
    case Message(p) => Shaped(l) && WellFormedAppend(p) && l' == HandleAppendEntries(l, p).learner
    case Reboot => Restart(l.id, l.disk) == Some(l')
  }

  lemma RestartGivesLogBack(l: Learner, id: Id, l': Learner)
    requires LogsAgree(l) && Restart(id, l.disk) == Some(l')
    ensures LogsAgree(l') && l'.log == l.log
  {
    LoadGivesLogBack(l.log);
  }

  /** In every state of every life the store holds exactly the entries `1..n` of the in-memory log. */
  lemma {:induction false} LearnerLogAgreement(ls: seq<Learner>, events: seq<Event>, k: nat)
    requires Life(ls, events) && k < |ls|
    ensures LogsAgree(ls[k])
    ensures Load(ls[k].disk.logs) == ls[k].log
  {
    if k > 0 {
      LearnerLogAgreement(ls, events, k - 1);
      assert LifeStep(ls[k - 1], ls[k], events[k - 1]);
      match events[k - 1]
      case Message(p) => AppendKeepsLogsAgree(ls[k - 1], p);
      case Reboot => RestartGivesLogBack(ls[k - 1], ls[k - 1].id, ls[k]);
    }
    LoadGivesLogBack(ls[k].log);
  }

  /** A duplicate of a message that was accepted changes nothing and is answered the same way. */
  lemma SuccessfulAppendIsIdempotent(l: Learner, p: Payload)
    requires Shaped(l) && WellFormedAppend(p)
    requires HandleAppendEntries(l, p).success
    ensures
      var a := HandleAppendEntries(l, p);
      Shaped(a.learner) && HandleAppendEntries(a.learner, p) == a
  {
    var l1 := Greet(l, p);
    var lp := LogPair(l1.log, l1.disk.logs);
    var q := Absorb(lp, p.entries, p.prevLogIndex, true);
    var l2 := l1.(log := q.mem, disk := l1.disk.(logs := q.stored));
    var a := HandleAppendEntries(l, p);
    AbsorbShape(lp, p.entries, p.prevLogIndex, true);
    AbsorbKnown(q, p.entries, p.prevLogIndex, true);
    assert a.learner == FollowCommit(l2, p.leaderCommit);
    if p.entries != [] && p.prevLogIndex > 0 {
      assert q.mem[..p.prevLogIndex][p.prevLogIndex - 1] == l1.log[..p.prevLogIndex][p.prevLogIndex - 1];
    }
    FollowCommitTwice(l2, p.leaderCommit);
  }

  lemma FollowCommitTwice(l: Learner, leaderCommit: int)
    requires l.lastApplied >= 0
    ensures FollowCommit(FollowCommit(l, leaderCommit), leaderCommit) == FollowCommit(l, leaderCommit)
  {
    var r := FollowCommit(l, leaderCommit);
    if leaderCommit > l.commitIndex {
      var c := l.(commitIndex := Min(leaderCommit, |l.log|));
      assert r.lastApplied >= r.commitIndex;
      assert ApplyLoop(r) == r;
    }
  }
}
