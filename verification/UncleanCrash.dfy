/**
 * Why Log Matching asks that a crashing core node reads back the log it had: a run of five nodes with one other crash,
 * after which two logs share an entry and differ before it (core/Raft.go:543-545, 1116-1122).
 */
module UncleanCrash {
  import opened Common
  import opened RaftTypes
  import opened RaftLog
  import opened RaftNode
  import opened RaftSystem
  import opened LongFollower

  /** The first node leads term 1 with two entries and gets both to the second. */
  lemma TwoEntries(ps: seq<Id>, x: Command, y: Command) returns (s: System)
    requires Five(ps)
    ensures Reached(s) && s.peers == ps && s.nodes.Keys == PeerSet(ps)
    ensures
      var log := [Entry(1, 1, x), Entry(2, 1, y)];
      Plain(s.nodes[ps[0]], ps[0], Leader, 1, log) && Plain(s.nodes[ps[1]], ps[1], Follower, 1, log)
    ensures Plain(s.nodes[ps[2]], ps[2], Follower, 1, [])
    ensures Plain(s.nodes[ps[3]], ps[3], Follower, 0, []) && Plain(s.nodes[ps[4]], ps[4], Follower, 0, [])
  {
    FiveDiffer(ps);
    var s1 := FirstLeader(ps);
    var one, log := TwoEntriesLog(1, x, y);
    var s2 := ProposeTwo(s1, ps[0], 1, [], x, y, one, log);
    s := Replicate(s2, ps[0], ps[1], 1, 1, log, [], log);
  }

  /** The third, with an empty log, leads term 2 with one entry of its own, and sends it to the second. */
  lemma OneMoreEntry(s: System, ps: seq<Id>, log: Log, z: Command) returns (s': System)
    requires Five(ps) && Reached(s) && s.peers == ps && s.nodes.Keys == PeerSet(ps)
    requires Plain(s.nodes[ps[0]], ps[0], Leader, 1, log) && Plain(s.nodes[ps[1]], ps[1], Follower, 1, log)
    requires Plain(s.nodes[ps[2]], ps[2], Follower, 1, [])
    requires Plain(s.nodes[ps[3]], ps[3], Follower, 0, []) && Plain(s.nodes[ps[4]], ps[4], Follower, 0, [])
    ensures Reached(s') && s'.peers == ps && s'.nodes.Keys == PeerSet(ps)
    ensures Plain(s'.nodes[ps[0]], ps[0], Leader, 1, log) && Plain(s'.nodes[ps[1]], ps[1], Follower, 1, log)
    ensures Packet(ps[2], ps[1], WholeLog(ps[2], 2, [Entry(1, 2, z)])) in s'.net
  {
    FiveDiffer(ps);
    var s1 := Win(s, ps[2], ps[3], ps[4], Follower, 1, 0, [], []);
    s' := OwnEntrySent(s1, ps[2], ps[1], 2, z);
  }

  lemma OwnEntrySent(s: System, n: Id, dst: Id, term: int, z: Command) returns (s': System)
    requires Reached(s) && n in s.nodes && dst in s.peers && dst != n
    requires Plain(s.nodes[n], n, Leader, term, []) && TracksFrom(s.nodes[n], s.peers, 1)
    ensures Reached(s') && OthersKept(s, s', n) && Packet(n, dst, WholeLog(n, term, [Entry(1, term, z)])) in s'.net
  {
    var log := [Entry(1, term, z)];
    FirstEntry(Entry(1, term, z));
    var s1 := ProposeOne(s, n, term, [], z, log);
    s' := SendAll(s1, n, dst, term, log);
  }

  /** A conflict at the first entry: in memory one entry is left, on disk both. */
  lemma Overwritten(x: Entry, y: Entry, z: Entry)
    requires x.index == 1 && y.index == 2 && z.index == 1 && x.term != z.term
    ensures WellIndexed([x, y]) && Follows([z], 0)
    ensures Absorb(LogPair([x, y], LogMap([x, y])), [z], 0, false) == LogPair([z], LogMap([z, y]))
  {
    var p := LogPair([x, y], LogMap([x, y]));
    assert [x, y][..0] + [z] == [z] && [x, y][0 := z] == [z, y] && [z][1..] == [];
    OverwriteStored([x, y], z);
    assert AbsorbOne(p, z, false) == LogPair([z], LogMap([z, y]));
    assert Absorb(p, [z], 0, false) == Absorb(AbsorbOne(p, z, false), [], 1, false);
  }

  lemma TakeOverwrite(s: System, n: Id, v: Id, x: Entry, y: Entry, z: Entry) returns (s': System)
    requires Reached(s) && v in s.nodes && Plain(s.nodes[v], v, Follower, 1, [x, y])
    requires Packet(n, v, WholeLog(n, 2, [z])) in s.net && z.index == 1 && x.term != z.term
    ensures Reached(s') && OthersKept(s, s', v)
    ensures s'.nodes[v].id == v && s'.nodes[v].disk.logs == LogMap([z, y]) && s'.nodes[v].term == 2
    ensures s'.nodes[v].disk.LoadMeta().commitIndex == 0 && s'.nodes[v].disk.LoadMeta().lastApplied == 0
  {
    var pkt := Packet(n, v, WholeLog(n, 2, [z]));
    TakenWhole(s.nodes[v], n, v, 2, 1, [x, y], [z]);
    Overwritten(x, y, z);
    var a := HandleAppendEntries(s.nodes[v], pkt.payload);
    s' := Act(s, v, AppendStep(v, pkt), Effect(a.core, {AppendReply(a, n)}));
  }

  /** The crash itself, with nothing stored beyond what is in memory but the old suffix. */
  lemma CrashBack(c: Core, stored: Log) returns (r: Core)
    requires c.disk.logs == LogMap(stored) && c.disk.LoadMeta().commitIndex == 0 && c.disk.LoadMeta().lastApplied == 0
    ensures Restart(c.id, c.disk) == Some(r) && r.id == c.id && r.log == stored
  {
    LoadGivesLogBack(stored);
    r := Booted(c.id, c.disk);
  }

  lemma CrashRun(s: System, v: Id, stored: Log) returns (run: seq<System>, steps: seq<Step>)
    requires Reached(s) && v in s.nodes && s.nodes[v].id == v && s.nodes[v].disk.logs == LogMap(stored) && s.nodes[v].term >= 0
    requires s.nodes[v].disk.LoadMeta().commitIndex == 0 && s.nodes[v].disk.LoadMeta().lastApplied == 0
    ensures Run(run, steps) && OthersKept(s, run[|steps|], v) && run[|steps|].nodes[v].log == stored
  {
    var r := CrashBack(s.nodes[v], stored);
    var e := Effect(r, {});
    assert EffectOf(s, s.nodes[v], CrashStep(v, 0)) == Some(e);
    var s' := Record(s, e.core, e.sent);
    var before, taken :| Run(before, taken) && CrashFree(taken) && before[|taken|] == s;
    LongerRun(before, taken, s', CrashStep(v, 0));
    run, steps := before + [s'], taken + [CrashStep(v, 0)];
  }

  /**
   * For any five nodes and commands: two logs that share the entry of index 2 and term 1, and differ before it; in the
   * log read back the terms fall.
   */
  lemma UncleanCrashBreaksMatching(ps: seq<Id>, x: Command, y: Command, z: Command)
    returns (run: seq<System>, steps: seq<Step>)
    requires Five(ps)
    ensures Run(run, steps) && ps[0] in run[|steps|].nodes && ps[1] in run[|steps|].nodes
    ensures
      var a, b := run[|steps|].nodes[ps[0]].log, run[|steps|].nodes[ps[1]].log;
      && a == [Entry(1, 1, x), Entry(2, 1, y)] && b == [Entry(1, 2, z), Entry(2, 1, y)]
      && a[1] == b[1] && a[..2] != b[..2] && b[0].term > b[1].term
  {
    var ex, ey, ez := Entry(1, 1, x), Entry(2, 1, y), Entry(1, 2, z);
    FiveDiffer(ps);
    var s1 := TwoEntries(ps, x, y);
    var s2 := OneMoreEntry(s1, ps, [ex, ey], z);
    var s3 := TakeOverwrite(s2, ps[2], ps[1], ex, ey, ez);
    run, steps := CrashRun(s3, ps[1], [ez, ey]);
    assert [ex, ey][..2][0] != [ez, ey][..2][0];
  }
}
