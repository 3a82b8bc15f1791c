/**
 * Crashes while committed entries are being applied, at every write to the disk, and what the restart and the next
 * commit make of what they leave (core/Raft.go:125-172, 190-228, 554-559; core/Learner.go:47-84, 166-178, 253-270).
 */
module CrashRecovery {
  import opened Common
  import opened RaftTypes
  import opened RaftLog
  import opened Replay
  import L = LearnerNode
  import N = RaftNode

  /** The state is that of the first `a` entries, except that some of the entries up to `m` may have left their mark. */
  ghost predicate Ahead(log: Log, a: int, m: int, state: map<string, string>) {
    0 <= a <= m <= |log| && AgreeOff(state, Applied(log, a), Touched(log[a..m]))
  }

  lemma AppliedNext(log: Log, a: nat)
    requires a < |log|
    ensures Applied(log, a + 1) == ApplyCommand(Applied(log, a), log[a].command)
  {
    AppliedSplit(log, a, a + 1);
    var one := log[a..a + 1];
    assert one == [log[a]] && one[1..] == [];
    assert ApplyEntries(Applied(log, a), one) == ApplyEntries(ApplyCommand(Applied(log, a), one[0].command), one[1..]);
  }

  lemma TouchedNext(log: Log, a: nat, m: nat)
    requires a < m <= |log|
    ensures Touched(log[a..m]) == Touched(log[a + 1..m]) + if Writes(log[a].command) then {log[a].command.key} else {}
  {
    assert log[a..m][1..] == log[a + 1..m];
  }

  /** The state write of a turn, with the metadata still saying `a`, and with it saying `a + 1`. */
  lemma AheadTurn(log: Log, a: nat, m: nat, state: map<string, string>)
    requires Ahead(log, a, m, state) && a < m
    ensures Ahead(log, a, m, ApplyCommand(state, log[a].command))
    ensures Ahead(log, a + 1, m, ApplyCommand(state, log[a].command))
  {
    var cmd := log[a].command;
    AppliedNext(log, a);
    TouchedNext(log, a, m);
    forall k | k !in Touched(log[a..m]) ensures SameAt(ApplyCommand(state, cmd), Applied(log, a), k) {
      assert SameAt(state, Applied(log, a), k);
    }
    var next := a + 1;
    forall k | k !in Touched(log[next..m]) ensures SameAt(ApplyCommand(state, cmd), Applied(log, next), k) {
      if k in Touched(log[a..m]) {
        assert Writes(cmd) && k == cmd.key;
      } else {
        assert SameAt(state, Applied(log, a), k);
      }
    }
  }

  lemma {:induction false} AheadRun(log: Log, a: nat, b: nat, m: nat, state: map<string, string>)
    requires Ahead(log, a, m, state) && a <= b <= m
    ensures Ahead(log, b, m, ApplyEntries(state, log[a..b]))
    decreases b - a
  {
    if a < b {
      AheadTurn(log, a, m, state);
      AheadRun(log, a + 1, b, m, ApplyCommand(state, log[a].command));
      assert log[a..b][1..] == log[a + 1..b];
    } else {
      assert log[a..b] == [];
    }
  }

  /** Nothing is left of it once the entries up to `m`, or more, have been applied. */
  lemma AheadMended(log: Log, a: nat, m: nat, b: nat, state: map<string, string>)
    requires Ahead(log, a, m, state) && m <= b <= |log|
    ensures ApplyEntries(state, log[a..b]) == Applied(log, b)
  {
    assert log[a..b] == log[a..m] + log[m..b];
    TouchedGrows(log[a..m], log[m..b]);
    ReplayIsRightIff(log, a, b, state);
  }

  lemma AheadOfNothing(log: Log, m: nat, state: map<string, string>)
    requires Ahead(log, m, m, state)
    ensures state == Applied(log, m)
  {
    assert log[m..m] == [];
    AheadMended(log, m, m, m, state);
  }

  lemma AheadWider(log: Log, a: nat, m: nat, b: nat, state: map<string, string>)
    requires Ahead(log, a, m, state) && m <= b <= |log|
    ensures Ahead(log, a, b, state)
  {
    assert log[a..b] == log[a..m] + log[m..b];
    TouchedGrows(log[a..m], log[m..b]);
  }

  lemma AheadOnLonger(log: Log, longer: Log, a: nat, m: nat, state: map<string, string>)
    requires Ahead(log, a, m, state) && log <= longer
    ensures Ahead(longer, a, m, state)
  {
    assert longer[..a] == log[..a] && longer[a..m] == log[a..m];
  }

  /** From such a disk a restart, and then a commit as far as `ci`, restores everything up to `ci`. */
  ghost predicate Mendable(d: Disk, ci: int) {
    && (exists n: nat :: Dense(d.logs, n)) && d.LoadMeta().commitIndex <= ci
    && Ahead(Load(d.logs), d.LoadMeta().lastApplied, ci, d.state)
  }

  // ---------------------------------------------------------------------------
  // A core node
  // ---------------------------------------------------------------------------

  /**
   * What a crash leaves: the log as it was, and the metadata either as before or that of a turn completed since; the
   * state is ahead of what the metadata says, but not beyond `m`.
   */
  ghost predicate CoreLeft(c: N.Core, m: int, d: Disk) {
    && d.logs == c.disk.logs
    && (|| (d.meta == c.disk.meta && Ahead(c.log, c.lastApplied, m, d.state))
        || exists t :: c.lastApplied < t <= c.commitIndex
             && d.meta == Some(Meta(c.term, c.votedFor, c.commitIndex, t)) && Ahead(c.log, t, m, d.state))
  }

  lemma {:induction false} CorePastIsLeft(c: N.Core, m: nat, d: Disk)
    requires Ahead(c.log, c.lastApplied, m, c.disk.state) && c.commitIndex <= m
    requires d in N.ApplyPast(c) || d == N.Apply(c).disk
    ensures CoreLeft(c, m, d)
    decreases c.commitIndex - c.lastApplied
  {
    if c.lastApplied < c.commitIndex {
      AheadTurn(c.log, c.lastApplied, m, c.disk.state);
      if d !in N.TurnPast(c) {
        CoreTurnDone(c);
        CorePastIsLeft(N.ApplyNext(c), m, d);
      }
    }
  }

  lemma CoreTurnDone(c: N.Core)
    requires 0 <= c.lastApplied < c.commitIndex <= |c.log|
    ensures
      var r := N.ApplyNext(c);
      && r.log == c.log && r.term == c.term && r.votedFor == c.votedFor && r.commitIndex == c.commitIndex
      && r.lastApplied == c.lastApplied + 1 && r.disk.logs == c.disk.logs
      && r.disk.meta == Some(Meta(c.term, c.votedFor, c.commitIndex, c.lastApplied + 1))
      && r.disk.state == ApplyCommand(c.disk.state, c.log[c.lastApplied].command)
  {
  }

  /** The disk, at any moment, of a node that follows the leader's commit index. */
  ghost predicate CoreCrashes(c: N.Core, leaderCommit: int, d: Disk)
    requires c.lastApplied >= 0
  {
    d in N.FollowPast(c, leaderCommit) || d == N.FollowCommit(c, leaderCommit).disk
  }

  /** Before the commit: the metadata on disk is no newer than the node's own, and the state not beyond the commit. */
  ghost predicate CoreReady(c: N.Core, leaderCommit: int) {
    var ci := Min(leaderCommit, |c.log|);
    && leaderCommit > c.commitIndex && Ahead(c.log, c.lastApplied, ci, c.disk.state)
    && c.disk.LoadMeta().lastApplied == c.lastApplied && c.disk.LoadMeta().commitIndex <= ci
    && exists n: nat :: StoredCovers(LogPair(c.log, c.disk.logs), n)
  }

  lemma CoreCrashIsLeft(c: N.Core, leaderCommit: int, d: Disk)
    requires CoreReady(c, leaderCommit) && CoreCrashes(c, leaderCommit, d)
    ensures
      var ci := Min(leaderCommit, |c.log|);
      && d.logs == c.disk.logs && Ahead(c.log, d.LoadMeta().lastApplied, ci, d.state)
      && (d.meta == c.disk.meta || d.LoadMeta().commitIndex == ci)
  {
    var c' := c.(commitIndex := Min(leaderCommit, |c.log|));
    var r := N.Apply(c');
    N.ApplyRunsEntries(c');
    if d == N.FollowCommit(c, leaderCommit).disk {
      AheadRun(c.log, c.lastApplied, c'.commitIndex, c'.commitIndex, c.disk.state);
      assert d == r.disk.(meta := Some(Meta(c.term, c.votedFor, c'.commitIndex, c'.commitIndex)));
    } else {
      CorePastIsLeft(c', c'.commitIndex, d);
    }
  }

  lemma StoredBegins(p: LogPair, n: nat)
    requires StoredCovers(p, n)
    ensures p.mem <= Load(p.stored)
  {
    var loaded := Load(p.stored);
    LoadDense(p.stored, n);
    forall i | 0 <= i < |p.mem| ensures p.mem[i] == loaded[i] {
      var k: nat := i + 1;
      assert k in LogMap(loaded) && p.stored[k] == loaded[k - 1];
    }
  }

  lemma CoreCrashIsMendable(c: N.Core, leaderCommit: int, d: Disk)
    requires CoreReady(c, leaderCommit) && CoreCrashes(c, leaderCommit, d)
    ensures c.log <= Load(d.logs) && Mendable(d, Min(leaderCommit, |c.log|))
  {
    var n: nat :| StoredCovers(LogPair(c.log, c.disk.logs), n);
    CoreCrashIsLeft(c, leaderCommit, d);
    StoredBegins(LogPair(c.log, c.disk.logs), n);
    AheadOnLonger(c.log, Load(d.logs), d.LoadMeta().lastApplied, Min(leaderCommit, |c.log|), d.state);
    assert Dense(d.logs, n);
  }

  /** A restart re-applies from where the metadata says, and stays within the commit it was interrupted in. */
  lemma CoreRestarts(id: Id, d: Disk, ci: nat)
    requires Mendable(d, ci)
    ensures N.Restart(id, d).Some?
    ensures
      var r := N.Restart(id, d).value;
      && r.log == Load(d.logs) && r.commitIndex == d.LoadMeta().commitIndex
      && r.lastApplied == Max(d.LoadMeta().lastApplied, r.commitIndex)
      && Ahead(r.log, r.lastApplied, ci, r.disk.state)
  {
    var c := N.Booted(id, d);
    if c.commitIndex > c.lastApplied {
      N.ApplyRunsEntries(c);
      AheadRun(c.log, c.lastApplied, c.commitIndex, ci, d.state);
    }
  }

  /** The disk at any moment of a restart. */
  ghost predicate CoreRestartCrashes(id: Id, d: Disk, d': Disk) {
    d' in N.RestartPast(id, d) || (N.Restart(id, d).Some? && d' == N.Restart(id, d).value.disk)
  }

  /** A crash while a restart re-applies leaves no worse a disk than the one it started from. */
  lemma CoreRestartCrashIsMendable(id: Id, d: Disk, d': Disk, ci: nat)
    requires Mendable(d, ci) && CoreRestartCrashes(id, d, d')
    ensures d'.logs == d.logs && d'.LoadMeta().commitIndex == d.LoadMeta().commitIndex && Mendable(d', ci)
  {
    var c := N.Booted(id, d);
    if d' != d {
      CorePastIsLeft(c, ci, d');
    }
  }

  /** Crashes one after the other: the first at any write of a commit, each further one at any write of the restart before. */
  ghost predicate CoreCrashChain(c: N.Core, leaderCommit: int, id: Id, ds: seq<Disk>)
    requires c.lastApplied >= 0
  {
    && ds != [] && CoreCrashes(c, leaderCommit, ds[0])
    && forall i :: 0 <= i < |ds| - 1 ==> CoreRestartCrashes(id, ds[i], ds[i + 1])
  }

  lemma {:induction false} CoreChainIsMendable(c: N.Core, leaderCommit: int, id: Id, ds: seq<Disk>, k: nat)
    requires CoreReady(c, leaderCommit) && CoreCrashChain(c, leaderCommit, id, ds) && k < |ds|
    ensures c.log <= Load(ds[k].logs) && Mendable(ds[k], Min(leaderCommit, |c.log|))
    decreases k
  {
    if k == 0 {
      CoreCrashIsMendable(c, leaderCommit, ds[0]);
    } else {
      CoreChainIsMendable(c, leaderCommit, id, ds, k - 1);
      assert CoreRestartCrashes(id, ds[k - 1], ds[k - 1 + 1]);
      CoreRestartCrashIsMendable(id, ds[k - 1], ds[k], Min(leaderCommit, |c.log|));
    }
  }

  lemma CoreMends(r: N.Core, ci: nat, leaderCommit: int)
    requires Ahead(r.log, r.lastApplied, ci, r.disk.state) && r.commitIndex <= ci <= leaderCommit
    requires r.commitIndex == ci ==> r.lastApplied == ci
    ensures
      leaderCommit > r.commitIndex ==>
        N.FollowCommit(r, leaderCommit).disk.state == Applied(r.log, Min(leaderCommit, |r.log|))
    ensures leaderCommit == r.commitIndex ==> N.FollowCommit(r, leaderCommit).disk.state == Applied(r.log, ci)
  {
    if leaderCommit > r.commitIndex {
      var b := Min(leaderCommit, |r.log|);
      N.ApplyRunsEntries(r.(commitIndex := b));
      AheadMended(r.log, r.lastApplied, ci, b, r.disk.state);
    } else {
      AheadOfNothing(r.log, ci, r.disk.state);
    }
  }

  /**
   * A core node crashes at any write while it applies what the leader committed, and again at any write of the restart,
   * as often as you like. The last restart succeeds; if any metadata of the new commit had been written it ends with
   * exactly the committed entries applied, and in any case the next message that commits as far does.
   */
  lemma CoreCrashRecovers(c: N.Core, leaderCommit: int, ds: seq<Disk>, id: Id, later: int)
    requires CoreReady(c, leaderCommit) && CoreCrashChain(c, leaderCommit, id, ds) && later >= leaderCommit
    ensures N.Restart(id, ds[|ds| - 1]).Some?
    ensures
      var d := ds[|ds| - 1];
      var ci, r := Min(leaderCommit, |c.log|), N.Restart(id, d).value;
      && c.log <= r.log
      && (d.LoadMeta().commitIndex == ci ==> r.disk.state == Applied(r.log, ci) && r.lastApplied == r.commitIndex == ci)
      && N.FollowCommit(r, later).disk.state == Applied(r.log, Min(later, |r.log|))
  {
    var d, ci := ds[|ds| - 1], Min(leaderCommit, |c.log|);
    CoreChainIsMendable(c, leaderCommit, id, ds, |ds| - 1);
    CoreRestarts(id, d, ci);
    var r := N.Restart(id, d).value;
    if r.commitIndex == ci {
      AheadOfNothing(r.log, ci, r.disk.state);
    }
    CoreMends(r, ci, later);
  }

  /** The restarted node is then as ready for the next commit, and the next crashes, as it was before. */
  lemma CoreReadyAgain(c: N.Core, leaderCommit: int, ds: seq<Disk>, id: Id, later: int)
    requires CoreReady(c, leaderCommit) && CoreCrashChain(c, leaderCommit, id, ds) && later >= leaderCommit
    ensures N.Restart(id, ds[|ds| - 1]).Some?
    ensures
      var r := N.Restart(id, ds[|ds| - 1]).value;
      later > r.commitIndex ==> CoreReady(r, later)
  {
    var d, ci := ds[|ds| - 1], Min(leaderCommit, |c.log|);
    CoreChainIsMendable(c, leaderCommit, id, ds, |ds| - 1);
    CoreRestarts(id, d, ci);
    var r := N.Restart(id, d).value;
    AheadWider(r.log, r.lastApplied, ci, Min(later, |r.log|), r.disk.state);
    CoreRestartMeta(id, d);
    CoversAgain(r, d);
  }

  lemma CoversAgain(r: N.Core, d: Disk)
    requires (exists n: nat :: Dense(d.logs, n)) && r.log == Load(d.logs) && r.disk.logs == d.logs
    ensures exists n: nat :: StoredCovers(LogPair(r.log, r.disk.logs), n)
  {
    var n: nat :| Dense(d.logs, n);
    LoadDense(d.logs, n);
    assert StoredCovers(LogPair(r.log, r.disk.logs), n);
  }

  /** A leader that commits on a reply goes through disks a follower of that commit index would, so all this holds of it. */
  lemma LeaderCrashesAsFollower(c: N.Core, peers: seq<Id>, d: Disk)
    requires c.lastApplied >= 0 && N.AdvanceCommitIndex(c, peers).Some?
    requires
      var r := N.AdvanceCommitIndex(c, peers).value;
      r.commitIndex != c.commitIndex && (d in N.AdvancePast(c, peers) || d == r.disk)
    ensures CoreCrashes(c, N.AdvanceCommitIndex(c, peers).value.commitIndex, d)
  {
    var r := N.AdvanceCommitIndex(c, peers).value;
    var c' := c.(commitIndex := r.commitIndex);
    assert N.FollowPast(c, r.commitIndex) == N.ApplyPast(c') + [N.Apply(c').disk];
  }

  lemma CoreRestartMeta(id: Id, d: Disk)
    requires N.Restart(id, d).Some?
    ensures
      var r := N.Restart(id, d).value;
      && r.disk.logs == d.logs && r.log == Load(d.logs)
      && r.disk.LoadMeta().lastApplied == r.lastApplied && r.disk.LoadMeta().commitIndex == r.commitIndex
  {
    var c := N.Booted(id, d);
    if c.commitIndex > c.lastApplied {
      ApplySavesMeta(c);
    }
  }

  lemma {:induction false} ApplySavesMeta(c: N.Core)
    requires 0 <= c.lastApplied && c.commitIndex <= |c.log|
    requires c.disk.LoadMeta().lastApplied == c.lastApplied && c.disk.LoadMeta().commitIndex == c.commitIndex
    ensures N.Apply(c).disk.LoadMeta().lastApplied == N.Apply(c).lastApplied
    ensures N.Apply(c).disk.LoadMeta().commitIndex == c.commitIndex
    decreases c.commitIndex - c.lastApplied
  {
    if c.lastApplied < c.commitIndex {
      CoreTurnDone(c);
      ApplySavesMeta(N.ApplyNext(c));
    }
  }

  /** The disk behind the first `j` writes of a commit. */
  ghost function DiskAfter(c: N.Core, leaderCommit: int, j: nat): Disk
    requires c.lastApplied >= 0
  {
    var past := N.FollowPast(c, leaderCommit);
    if j < |past| then past[j] else N.FollowCommit(c, leaderCommit).disk
  }

  /**
   * Before that first metadata write the restart re-applies nothing. From a node whose disk was exact, the state agrees
   * with the commit index read back at every crash, save the one between the first state write and the metadata behind
   * it, and there exactly when the first command changes nothing.
   */
  lemma CoreRestartIsExactIff(c: N.Core, leaderCommit: int, j: nat, id: Id)
    requires CoreReady(c, leaderCommit) && c.lastApplied < Min(leaderCommit, |c.log|)
    requires c.disk.state == Applied(c.log, c.lastApplied) && c.disk.LoadMeta().commitIndex == c.lastApplied
    ensures
      var d := DiskAfter(c, leaderCommit, j);
      var cmd := c.log[c.lastApplied].command;
      && N.Restart(id, d).Some?
      && var r := N.Restart(id, d).value;
      && 0 <= r.commitIndex <= |r.log|
      && (r.disk.state == Applied(r.log, r.commitIndex)
          <==> (j == 1 && Writes(cmd) ==> ApplyCommand(c.disk.state, cmd) == c.disk.state))
  {
    var d := DiskAfter(c, leaderCommit, j);
    CoreCrashRecovers(c, leaderCommit, [d], id, leaderCommit);
    FirstDisks(c, leaderCommit, j);
    if d.LoadMeta().commitIndex != Min(leaderCommit, |c.log|) {
      CoreCrashIsLeft(c, leaderCommit, d);
      CoreCrashIsMendable(c, leaderCommit, d);
      OldMetaRestart(c, d, id);
    }
  }

  lemma PastBegins(c: N.Core, leaderCommit: int)
    requires 0 <= c.lastApplied < Min(leaderCommit, |c.log|) && leaderCommit > c.commitIndex
    ensures
      var c' := c.(commitIndex := Min(leaderCommit, |c.log|));
      N.FollowPast(c, leaderCommit) == N.TurnPast(c) + (N.ApplyPast(N.ApplyNext(c')) + [N.Apply(c').disk])
  {
    var c' := c.(commitIndex := Min(leaderCommit, |c.log|));
    SeqAssoc(N.TurnPast(c'), N.ApplyPast(N.ApplyNext(c')), [N.Apply(c').disk]);
  }

  lemma LateDisk(c: N.Core, leaderCommit: int, j: nat)
    requires CoreReady(c, leaderCommit) && c.lastApplied < Min(leaderCommit, |c.log|)
    requires |N.TurnPast(c)| <= j
    ensures DiskAfter(c, leaderCommit, j).LoadMeta().commitIndex == Min(leaderCommit, |c.log|)
  {
    var c' := c.(commitIndex := Min(leaderCommit, |c.log|));
    var turn, rest := N.TurnPast(c), N.ApplyPast(N.ApplyNext(c')) + [N.Apply(c').disk];
    PastBegins(c, leaderCommit);
    if j < |N.FollowPast(c, leaderCommit)| {
      assert (turn + rest)[j] == rest[j - |turn|];
      LaterMeta(c', rest[j - |turn|]);
    }
  }

  /** Where the metadata is still the old one: only before the first write, and right behind the first state write. */
  lemma FirstDisks(c: N.Core, leaderCommit: int, j: nat)
    requires CoreReady(c, leaderCommit) && c.lastApplied < Min(leaderCommit, |c.log|)
    ensures
      var d, cmd := DiskAfter(c, leaderCommit, j), c.log[c.lastApplied].command;
      && (j == 0 ==> d.meta == c.disk.meta && d.state == c.disk.state)
      && (j == 1 && Writes(cmd) ==> d.meta == c.disk.meta && d.state == ApplyCommand(c.disk.state, cmd))
      && (j > 1 || (j == 1 && !Writes(cmd)) ==> d.LoadMeta().commitIndex == Min(leaderCommit, |c.log|))
  {
    PastBegins(c, leaderCommit);
    var turn := N.TurnPast(c);
    if j < |turn| {
      assert N.FollowPast(c, leaderCommit)[j] == turn[j];
    } else {
      LateDisk(c, leaderCommit, j);
    }
  }

  lemma LaterMeta(c: N.Core, d: Disk)
    requires Ahead(c.log, c.lastApplied, c.commitIndex, c.disk.state) && c.lastApplied < c.commitIndex
    requires d in N.ApplyPast(N.ApplyNext(c)) || d == N.Apply(c).disk
    ensures d.LoadMeta().commitIndex == c.commitIndex
  {
    CoreTurnDone(c);
    AheadTurn(c.log, c.lastApplied, c.commitIndex, c.disk.state);
    CorePastIsLeft(N.ApplyNext(c), c.commitIndex, d);
  }

  lemma OldMetaRestart(c: N.Core, d: Disk, id: Id)
    requires d.meta == c.disk.meta && d.logs == c.disk.logs && c.log <= Load(c.disk.logs)
    requires 0 <= c.lastApplied <= |c.log| && c.disk.state == Applied(c.log, c.lastApplied)
    requires c.disk.LoadMeta().commitIndex == c.disk.LoadMeta().lastApplied == c.lastApplied
    ensures N.Restart(id, d).Some?
    ensures
      var r := N.Restart(id, d).value;
      && r.disk.state == d.state && r.commitIndex == c.lastApplied && c.log <= r.log
      && Applied(r.log, r.commitIndex) == c.disk.state
  {
    var r := N.Restart(id, d).value;
    assert r.log[..c.lastApplied] == c.log[..c.lastApplied];
  }

  // ---------------------------------------------------------------------------
  // Between two writes to the log
  // ---------------------------------------------------------------------------

  /**
   * A core node crashes after `i` of the entries of a message: it comes back with the log as it was then, perhaps with an
   * old suffix behind it, and with the state it had, as long as what was applied stayed in the log.
   */
  lemma LogCrashKeepsState(c: N.Core, entries: seq<Entry>, prev: int, i: nat, n: nat, id: Id)
    requires StoredCovers(LogPair(c.log, c.disk.logs), n) && i <= |entries|
    requires Follows(entries, prev) && (entries != [] ==> 0 <= prev <= |c.log|)
    requires 0 <= c.lastApplied <= |c.log| && c.disk.state == Applied(c.log, c.lastApplied)
    requires c.disk.LoadMeta().commitIndex == c.disk.LoadMeta().lastApplied == c.lastApplied
    requires c.log[..c.lastApplied] <= Absorb(LogPair(c.log, c.disk.logs), entries[..i], prev, false).mem
    ensures
      var q := Absorb(LogPair(c.log, c.disk.logs), entries[..i], prev, false);
      var r := N.Restart(id, N.AppendDisk(c, entries, prev, i));
      && r.Some? && q.mem <= r.value.log && r.value.commitIndex == r.value.lastApplied == c.lastApplied
      && c.lastApplied <= |r.value.log| && r.value.disk.state == Applied(r.value.log, c.lastApplied)
  {
    var q := Absorb(LogPair(c.log, c.disk.logs), entries[..i], prev, false);
    AbsorbCovers(LogPair(c.log, c.disk.logs), entries[..i], prev, n);
    StoredBegins(q, Max(n, |q.mem|));
    assert Load(q.stored)[..c.lastApplied] == c.log[..c.lastApplied];
  }

  /** Stored entries read back as a log in which entry `i` sits at index `i + 1` exactly when there is no gap. */
  lemma LoadWellIndexedIff(logs: map<nat, Entry>)
    requires forall k: nat :: k in logs ==> k >= 1 && logs[k].index == k
    ensures WellIndexed(Load(logs)) <==> Dense(logs, |Load(logs)|)
  {
    var log := Load(logs);
    LoadedAreStored(logs);
    if WellIndexed(log) {
      forall k: nat | k in logs ensures 1 <= k <= |log| {
        assert logs[k] in log;
      }
      forall k: nat | 1 <= k <= |log| ensures k in logs {
        assert log[k - 1] in log;
      }
    }
    if Dense(logs, |log|) {
      LoadDense(logs, |log|);
    }
  }

  /**
   * Truncation deletes stored entries one by one. A crash among the deletes reads back a log without a gap exactly when
   * the entries gone so far are the last ones; deleted in ascending order they never are before all of them are gone.
   */
  lemma DeleteCrashIff(logs: map<nat, Entry>, n: nat, gone: set<nat>)
    requires Dense(logs, n) && gone <= logs.Keys
    ensures WellIndexed(Load(logs - gone)) <==> forall j: nat, k: nat :: j in gone && j < k <= n ==> k in gone
  {
    var rest := logs - gone;
    LoadWellIndexedIff(rest);
    if WellIndexed(Load(rest)) {
      forall j: nat, k: nat | j in gone && j < k <= n ensures k in gone {
        assert j in logs && j !in rest;
        assert k in logs && k !in rest;
      }
    }
    if forall j: nat, k: nat :: j in gone && j < k <= n ==> k in gone {
      UpTo(rest, n);
    }
  }

  lemma {:induction false} UpTo(logs: map<nat, Entry>, n: nat)
    requires forall k: nat :: k in logs ==> 1 <= k <= n && logs[k].index == k
    requires forall j: nat, k: nat :: k in logs && 1 <= j < k ==> j in logs
    ensures WellIndexed(Load(logs))
    decreases n
  {
    if n > 0 && n !in logs {
      UpTo(logs, n - 1);
    } else {
      LoadDense(logs, n);
    }
  }

  /** The least case: three entries, the last two to be deleted, and a crash behind the first delete. */
  lemma CrashAmongDeletes(x: Entry, y: Entry, z: Entry)
    requires x.index == 1 && y.index == 2 && z.index == 3
    ensures !WellIndexed(Load(LogMap([x, y, z]) - {2}))
  {
    var logs := LogMap([x, y, z]);
    var gone: set<nat> := {2};
    assert 2 in logs && Dense(logs, 3);
    DeleteCrashIff(logs, 3, gone);
    assert 2 in gone && 3 !in gone;
  }

  // ---------------------------------------------------------------------------
  // A learner
  // ---------------------------------------------------------------------------

  ghost predicate LearnerCrashes(l: L.Learner, leaderCommit: int, d: Disk)
    requires l.lastApplied >= 0
  {
    d in L.FollowPast(l, leaderCommit) || d == L.FollowCommit(l, leaderCommit).disk
  }

  ghost predicate LearnerReady(l: L.Learner, leaderCommit: int) {
    var ci := Min(leaderCommit, |l.log|);
    && L.LogsAgree(l) && leaderCommit > l.commitIndex && Ahead(l.log, l.lastApplied, ci, l.disk.state)
    && l.disk.LoadMeta().lastApplied == l.lastApplied && l.disk.LoadMeta().commitIndex <= ci
  }

  lemma AheadBack(log: Log, a: nat, m: nat, state: map<string, string>)
    requires Ahead(log, a + 1, m, state)
    ensures Ahead(log, a, m, state)
  {
    var next := a + 1;
    AppliedNext(log, a);
    TouchedNext(log, a, m);
    forall k | k !in Touched(log[a..m]) ensures SameAt(state, Applied(log, a), k) {
      assert SameAt(state, Applied(log, next), k);
    }
  }

  /** The metadata of a learner is written only after all the entries. */
  lemma {:induction false} LearnerLoopIsLeft(l: L.Learner, m: nat, d: Disk)
    requires Ahead(l.log, l.lastApplied, m, l.disk.state) && l.commitIndex <= m
    requires d in L.LoopPast(l) || d == L.ApplyLoop(l).disk
    ensures d.logs == l.disk.logs && d.meta == l.disk.meta && Ahead(l.log, l.lastApplied, m, d.state)
    decreases l.commitIndex - l.lastApplied
  {
    if l.lastApplied < l.commitIndex && d !in L.TurnPast(l) {
      AheadTurn(l.log, l.lastApplied, m, l.disk.state);
      LearnerLoopIsLeft(L.ApplyNext(l), m, d);
      AheadBack(l.log, l.lastApplied, m, d.state);
    }
  }

  /** Applying up to the commit index, as a restart does or as part of a commit. */
  lemma LearnerApplyIsLeft(l: L.Learner, m: nat, d: Disk)
    requires Ahead(l.log, l.lastApplied, m, l.disk.state) && l.lastApplied <= l.commitIndex <= m
    requires d in L.ApplyPast(l) || d == L.Apply(l).disk
    ensures d.logs == l.disk.logs
    ensures
      || (d.meta == l.disk.meta && Ahead(l.log, l.lastApplied, m, d.state))
      || (d.meta == Some(Meta(l.term, "", l.commitIndex, l.commitIndex)) && Ahead(l.log, l.commitIndex, m, d.state))
  {
    if d in L.LoopPast(l) || d == L.ApplyLoop(l).disk {
      LearnerLoopIsLeft(l, m, d);
    } else {
      L.ApplyRunsEntries(l);
      AheadRun(l.log, l.lastApplied, l.commitIndex, m, l.disk.state);
    }
  }

  lemma LearnerCrashIsMendable(l: L.Learner, leaderCommit: int, d: Disk)
    requires LearnerReady(l, leaderCommit) && LearnerCrashes(l, leaderCommit, d)
    ensures d.logs == l.disk.logs && Load(d.logs) == l.log && Mendable(d, Min(leaderCommit, |l.log|))
  {
    var l' := l.(commitIndex := Min(leaderCommit, |l.log|));
    LoadGivesLogBack(l.log);
    LearnerApplyIsLeft(l', l'.commitIndex, d);
    assert Dense(d.logs, |l.log|);
  }

  lemma LearnerRestarts(id: Id, d: Disk, ci: nat)
    requires Mendable(d, ci)
    ensures L.Restart(id, d).Some?
    ensures
      var r := L.Restart(id, d).value;
      && r.log == Load(d.logs) && r.disk.logs == d.logs && r.commitIndex == d.LoadMeta().commitIndex
      && r.lastApplied == Max(d.LoadMeta().lastApplied, r.commitIndex)
      && r.disk.LoadMeta().lastApplied == r.lastApplied && r.disk.LoadMeta().commitIndex == r.commitIndex
      && Ahead(r.log, r.lastApplied, ci, r.disk.state)
  {
    var l := L.Booted(id, d);
    if l.commitIndex > l.lastApplied {
      L.ApplyRunsEntries(l);
      AheadRun(l.log, l.lastApplied, l.commitIndex, ci, d.state);
    }
  }

  ghost predicate LearnerRestartCrashes(id: Id, d: Disk, d': Disk) {
    d' in L.RestartPast(id, d) || (L.Restart(id, d).Some? && d' == L.Restart(id, d).value.disk)
  }

  lemma LearnerRestartCrashIsMendable(id: Id, d: Disk, d': Disk, ci: nat)
    requires Mendable(d, ci) && LearnerRestartCrashes(id, d, d')
    ensures d'.logs == d.logs && Mendable(d', ci)
  {
    var l := L.Booted(id, d);
    if d' != d {
      LearnerApplyIsLeft(l, ci, d');
    }
  }

  ghost predicate LearnerCrashChain(l: L.Learner, leaderCommit: int, id: Id, ds: seq<Disk>)
    requires l.lastApplied >= 0
  {
    && ds != [] && LearnerCrashes(l, leaderCommit, ds[0])
    && forall i :: 0 <= i < |ds| - 1 ==> LearnerRestartCrashes(id, ds[i], ds[i + 1])
  }

  lemma {:induction false} LearnerChainIsMendable(l: L.Learner, leaderCommit: int, id: Id, ds: seq<Disk>, k: nat)
    requires LearnerReady(l, leaderCommit) && LearnerCrashChain(l, leaderCommit, id, ds) && k < |ds|
    ensures ds[k].logs == l.disk.logs && Load(ds[k].logs) == l.log && Mendable(ds[k], Min(leaderCommit, |l.log|))
    decreases k
  {
    if k == 0 {
      LearnerCrashIsMendable(l, leaderCommit, ds[0]);
    } else {
      LearnerChainIsMendable(l, leaderCommit, id, ds, k - 1);
      assert LearnerRestartCrashes(id, ds[k - 1], ds[k - 1 + 1]);
      LearnerRestartCrashIsMendable(id, ds[k - 1], ds[k], Min(leaderCommit, |l.log|));
    }
  }

  lemma LearnerMends(r: L.Learner, ci: nat, leaderCommit: int)
    requires Ahead(r.log, r.lastApplied, ci, r.disk.state) && r.commitIndex <= ci <= leaderCommit
    requires r.commitIndex == ci ==> r.lastApplied == ci
    ensures
      leaderCommit > r.commitIndex ==>
        L.FollowCommit(r, leaderCommit).disk.state == Applied(r.log, Min(leaderCommit, |r.log|))
    ensures leaderCommit == r.commitIndex ==> L.FollowCommit(r, leaderCommit).disk.state == Applied(r.log, ci)
  {
    if leaderCommit > r.commitIndex {
      var b := Min(leaderCommit, |r.log|);
      L.ApplyRunsEntries(r.(commitIndex := b));
      AheadMended(r.log, r.lastApplied, ci, b, r.disk.state);
    } else {
      AheadOfNothing(r.log, ci, r.disk.state);
    }
  }

  /** The same for a learner, whose log comes back unchanged. */
  lemma LearnerCrashRecovers(l: L.Learner, leaderCommit: int, ds: seq<Disk>, id: Id, later: int)
    requires LearnerReady(l, leaderCommit) && LearnerCrashChain(l, leaderCommit, id, ds) && later >= leaderCommit
    ensures L.Restart(id, ds[|ds| - 1]).Some?
    ensures
      var d := ds[|ds| - 1];
      var ci, r := Min(leaderCommit, |l.log|), L.Restart(id, d).value;
      && r.log == l.log
      && (d.LoadMeta().commitIndex == ci ==> r.disk.state == Applied(r.log, ci) && r.lastApplied == r.commitIndex == ci)
      && L.FollowCommit(r, later).disk.state == Applied(r.log, Min(later, |r.log|))
  {
    var d, ci := ds[|ds| - 1], Min(leaderCommit, |l.log|);
    LearnerChainIsMendable(l, leaderCommit, id, ds, |ds| - 1);
    LearnerRestarts(id, d, ci);
    var r := L.Restart(id, d).value;
    if r.commitIndex == ci {
      AheadOfNothing(r.log, ci, r.disk.state);
    }
    LearnerMends(r, ci, later);
  }

  lemma LearnerReadyAgain(l: L.Learner, leaderCommit: int, ds: seq<Disk>, id: Id, later: int)
    requires LearnerReady(l, leaderCommit) && LearnerCrashChain(l, leaderCommit, id, ds) && later >= leaderCommit
    ensures L.Restart(id, ds[|ds| - 1]).Some?
    ensures
      var r := L.Restart(id, ds[|ds| - 1]).value;
      later > r.commitIndex ==> LearnerReady(r, later)
  {
    var d, ci := ds[|ds| - 1], Min(leaderCommit, |l.log|);
    LearnerChainIsMendable(l, leaderCommit, id, ds, |ds| - 1);
    LearnerRestarts(id, d, ci);
    var r := L.Restart(id, d).value;
    AheadWider(r.log, r.lastApplied, ci, Min(later, |r.log|), r.disk.state);
  }

  // ---------------------------------------------------------------------------
  // When a learner's restart is exact
  // ---------------------------------------------------------------------------

  /** The entries that write to the store. */
  function Writing(entries: seq<Entry>): seq<Entry> {
    if entries == [] then []
    else (if Writes(entries[0].command) then [entries[0]] else []) + Writing(entries[1..])
  }

  lemma {:induction false} WritingApplies(state: map<string, string>, entries: seq<Entry>)
    ensures ApplyEntries(state, Writing(entries)) == ApplyEntries(state, entries)
    decreases |entries|
  {
    if entries != [] {
      var rest := Writing(entries[1..]);
      WritingApplies(ApplyCommand(state, entries[0].command), entries[1..]);
      assert ([entries[0]] + rest)[1..] == rest && [] + rest == rest;
    }
  }

  lemma {:induction false} LoopPastSize(l: L.Learner)
    requires 0 <= l.lastApplied <= l.commitIndex <= |l.log|
    ensures |L.LoopPast(l)| == |Writing(l.log[l.lastApplied..l.commitIndex])|
    decreases l.commitIndex - l.lastApplied
  {
    if l.lastApplied < l.commitIndex {
      LoopPastSize(L.ApplyNext(l));
      assert l.log[l.lastApplied..l.commitIndex][1..] == l.log[l.lastApplied + 1..l.commitIndex];
    } else {
      assert l.log[l.lastApplied..l.commitIndex] == [];
    }
  }

  /** Behind `j` writes of the loop the first `j` writing entries are in the store, and nothing else has changed. */
  lemma {:induction false} LoopPastAt(l: L.Learner, j: nat)
    requires 0 <= l.lastApplied <= l.commitIndex <= |l.log| && j < |L.LoopPast(l)|
    ensures
      var batch := Writing(l.log[l.lastApplied..l.commitIndex]);
      |L.LoopPast(l)| == |batch| && L.LoopPast(l)[j] == l.disk.(state := ApplyEntries(l.disk.state, batch[..j]))
    decreases l.commitIndex - l.lastApplied
  {
    LoopPastSize(l);
    var cmd, next := l.log[l.lastApplied].command, L.ApplyNext(l);
    var batch, rest := Writing(l.log[l.lastApplied..l.commitIndex]), Writing(l.log[l.lastApplied + 1..l.commitIndex]);
    assert l.log[l.lastApplied..l.commitIndex][1..] == l.log[l.lastApplied + 1..l.commitIndex];
    if !Writes(cmd) {
      assert [] + rest == rest && [] + L.LoopPast(next) == L.LoopPast(next);
      LoopPastAt(next, j);
    } else if j > 0 {
      LoopPastAt(next, j - 1);
      assert batch[..j][1..] == rest[..j - 1];
    } else {
      assert batch[..0] == [];
    }
  }

  ghost function LearnerDiskAfter(l: L.Learner, leaderCommit: int, j: nat): Disk
    requires l.lastApplied >= 0
  {
    var past := L.FollowPast(l, leaderCommit);
    if j < |past| then past[j] else L.FollowCommit(l, leaderCommit).disk
  }

  /** The writes of a commit: those to the state, then the metadata twice. */
  lemma LearnerDisks(l: L.Learner, leaderCommit: int, j: nat)
    requires LearnerReady(l, leaderCommit) && l.lastApplied < Min(leaderCommit, |l.log|)
    ensures
      var ci, d := Min(leaderCommit, |l.log|), LearnerDiskAfter(l, leaderCommit, j);
      var batch := Writing(l.log[l.lastApplied..ci]);
      && |L.FollowPast(l, leaderCommit)| == |batch| + 2
      && (j <= |batch| ==> d == l.disk.(state := ApplyEntries(l.disk.state, batch[..j])))
      && (j > |batch| ==> d.LoadMeta().commitIndex == ci)
  {
    var l' := l.(commitIndex := Min(leaderCommit, |l.log|));
    var past, batch := L.FollowPast(l, leaderCommit), Writing(l.log[l.lastApplied..l'.commitIndex]);
    LoopPastSize(l');
    assert past == L.LoopPast(l') + [L.ApplyLoop(l').disk] + [L.Apply(l').disk];
    if j < |batch| {
      LoopPastAt(l', j);
    } else if j == |batch| {
      L.ApplyRunsEntries(l');
      WritingApplies(l.disk.state, l.log[l.lastApplied..l'.commitIndex]);
      assert batch[..j] == batch;
    }
  }

  /**
   * A learner stores its metadata only when the whole batch is in the store. From a disk that was exact, the state agrees
   * with the commit index read back after a crash behind the `j`-th write exactly when the metadata was among the writes, or
   * the first `j` writing entries together change nothing.
   */
  lemma LearnerRestartIsExactIff(l: L.Learner, leaderCommit: int, j: nat, id: Id)
    requires LearnerReady(l, leaderCommit) && l.lastApplied < Min(leaderCommit, |l.log|)
    requires l.disk.state == Applied(l.log, l.lastApplied) && l.disk.LoadMeta().commitIndex == l.lastApplied
    ensures
      var ci, d := Min(leaderCommit, |l.log|), LearnerDiskAfter(l, leaderCommit, j);
      var batch := Writing(l.log[l.lastApplied..ci]);
      && L.Restart(id, d).Some?
      && var r := L.Restart(id, d).value;
      && r.log == l.log && 0 <= r.commitIndex <= |r.log|
      && (r.disk.state == Applied(r.log, r.commitIndex)
          <==> (j <= |batch| ==> ApplyEntries(l.disk.state, batch[..j]) == l.disk.state))
  {
    var d := LearnerDiskAfter(l, leaderCommit, j);
    LearnerCrashRecovers(l, leaderCommit, [d], id, leaderCommit);
    LearnerDisks(l, leaderCommit, j);
  }
}
