/**
 * A run of five nodes, without any crash, in which a leader gets a success reply from a follower whose log is longer
 * than its own, and can no longer send to it (core/Raft.go:562-563, 622-631, 669-683).
 */
module LongFollower {
  import opened Common
  import opened RaftTypes
  import opened RaftLog
  import opened RaftNode
  import opened RaftSystem
  import opened RaftShape
  import opened Selection

  ghost predicate Reached(s: System) {
    exists run, steps :: Run(run, steps) && CrashFree(steps) && run[|steps|] == s
  }

  lemma ReachNext(s: System, s': System, step: Step)
    requires Reached(s) && Next(s, s', step) && !step.CrashStep?
    ensures Reached(s')
  {
    var run, steps :| Run(run, steps) && CrashFree(steps) && run[|steps|] == s;
    LongerRun(run, steps, s', step);
    assert (run + [s'])[|steps + [step]|] == s';
  }

  lemma LongerRun(run: seq<System>, steps: seq<Step>, s': System, step: Step)
    requires Run(run, steps) && Next(run[|steps|], s', step)
    ensures Run(run + [s'], steps + [step])
    ensures CrashFree(steps) && !step.CrashStep? ==> CrashFree(steps + [step])
  {
    var run', steps' := run + [s'], steps + [step];
    forall i | 0 <= i < |steps'| ensures Next(run'[i], run'[i + 1], steps'[i]) {
      if i < |steps| {
        assert Next(run[i], run[i + 1], steps[i]);
      }
    }
  }

  /** Only node `n` changed, and messages were only added. */
  ghost predicate OthersKept(s: System, s': System, n: Id) {
    && s'.peers == s.peers && s'.nodes.Keys == s.nodes.Keys && s.net <= s'.net
    && forall x :: x in s.nodes && x != n ==> s'.nodes[x] == s.nodes[x]
  }

  lemma Act(s: System, n: Id, step: Step, e: Effect) returns (s': System)
    requires Reached(s) && n in s.nodes && e.core.id == n
    requires !step.LearnStep? && !step.LearnerRestartStep? && !step.CrashStep? && step.node == n
    requires EffectOf(s, s.nodes[n], step) == Some(e)
    ensures Reached(s') && OthersKept(s, s', n) && s'.nodes[n] == e.core && s'.net == s.net + e.sent
  {
    s' := Record(s, e.core, e.sent);
    ReachNext(s, s', step);
  }

  /** Nothing committed or applied yet, no learners, and the log stored as it is. */
  ghost predicate Plain(c: Core, id: Id, role: Role, term: int, log: Log) {
    && c.id == id && c.role == role && c.term == term && c.log == log && c.learners == {} && InStep(LogPair(log, c.disk.logs))
    && c.commitIndex == 0 && c.lastApplied == 0 && c.disk.LoadMeta().commitIndex == 0 && c.disk.LoadMeta().lastApplied == 0
    && c.disk.state == map[]
  }

  lemma {:induction false} VoteRequestSent(c: Core, peers: seq<Id>, x: Id)
    requires x in peers && x != c.id
    ensures Packet(c.id, x, RequestVote(c.term, c.id, LastIndex(c.log), LastTerm(c.log))) in VoteRequests(c, peers)
    decreases |peers|
  {
    if peers[0] != x {
      VoteRequestSent(c, peers[1..], x);
    }
  }

  function Asking(n: Id, x: Id, term: int, log: Log): Packet {
    Packet(n, x, RequestVote(term, n, LastIndex(log), LastTerm(log)))
  }

  lemma ElectEffect(s: System, n: Id)
    requires n in s.nodes && s.nodes[n].role != Leader
    ensures EffectOf(s, s.nodes[n], ElectStep(n))
         == Some(Effect(StartElection(s.nodes[n]), set p | p in VoteRequests(StartElection(s.nodes[n]), s.peers)))
  {
  }

  lemma Elect(s: System, n: Id, role: Role, term: int, log: Log) returns (s': System)
    requires Reached(s) && n in s.nodes && Plain(s.nodes[n], n, role, term, log) && role != Leader
    ensures Reached(s') && OthersKept(s, s', n)
    ensures Plain(s'.nodes[n], n, Candidate, term + 1, log) && s'.nodes[n].votes == map[n := true]
    ensures forall x :: x in s.peers && x != n ==> Asking(n, x, term + 1, log) in s'.net
  {
    var e := ElectPlain(s.nodes[n], s.peers, n, role, term, log);
    ElectEffect(s, n);
    s' := Act(s, n, ElectStep(n), e);
  }

  lemma ElectPlain(c: Core, peers: seq<Id>, n: Id, role: Role, term: int, log: Log) returns (e: Effect)
    requires Plain(c, n, role, term, log) && role != Leader
    ensures e == Effect(StartElection(c), set p | p in VoteRequests(StartElection(c), peers))
    ensures Plain(e.core, n, Candidate, term + 1, log) && e.core.votes == map[n := true]
    ensures forall x :: x in peers && x != n ==> Asking(n, x, term + 1, log) in e.sent
  {
    var c' := StartElection(c);
    e := Effect(c', set p | p in VoteRequests(c', peers));
    forall x | x in peers && x != n ensures Asking(n, x, term + 1, log) in e.sent {
      VoteRequestSent(c', peers, x);
    }
  }

  function Granting(v: Id, n: Id, term: int): Packet {
    Packet(v, n, RequestVoteResponse(term, true, n, v))
  }

  lemma GiveVote(s: System, v: Id, n: Id, role: Role, term: int, term': int, log: Log, asking: Log) returns (s': System)
    requires Reached(s) && v in s.nodes && Plain(s.nodes[v], v, role, term, log) && term < term'
    requires Asking(n, v, term', asking) in s.net && IsUpToDate(log, LastIndex(asking), LastTerm(asking))
    ensures Reached(s') && OthersKept(s, s', v)
    ensures Plain(s'.nodes[v], v, Follower, term', log) && Granting(v, n, term') in s'.net
  {
    var pkt := Asking(n, v, term', asking);
    var (c, granted) := HandleRequestVote(s.nodes[v], pkt.payload);
    s' := Act(s, v, VoteStep(v, pkt), Effect(c, {VoteReply(c, granted, n)}));
  }

  lemma CountVote(s: System, n: Id, v: Id) returns (s': System)
    requires Reached(s) && n in s.nodes && s.nodes[n].id == n && Granting(v, n, s.nodes[n].term) in s.net
    ensures Reached(s') && OthersKept(s, s', n)
    ensures s'.nodes[n] == HandleRequestVoteResponse(s.nodes[n], Granting(v, n, s.nodes[n].term).payload, s.peers)
  {
    var pkt := Granting(v, n, s.nodes[n].term);
    s' := Act(s, n, VoteReplyStep(n, pkt), Effect(HandleRequestVoteResponse(s.nodes[n], pkt.payload, s.peers), {}));
  }

  lemma TwoMakeLeader(c: Core, n: Id, v: Id, w: Id, peers: seq<Id>)
    requires |peers| == 5 && n in peers && v in peers && w in peers && n != v && v != w && n != w
    requires c.id == n && c.role == Candidate && c.votes == map[n := true]
    ensures
      var c1 := HandleRequestVoteResponse(c, Granting(v, n, c.term).payload, peers);
      var c2 := HandleRequestVoteResponse(c1, Granting(w, n, c.term).payload, peers);
      && c1 == c.(votes := map[n := true, v := true])
      && c2 == SwitchToLeader(c.(votes := map[n := true, v := true, w := true]), peers)
  {
    assert Granted(map[n := true, v := true]) == {n, v};
    assert Granted(map[n := true, v := true, w := true]) == {n, v, w};
    assert |{n, v}| == 2 && |{n, v, w}| == 3;
  }

  /** What a new leader knows of its followers. */
  ghost predicate TracksFrom(c: Core, peers: seq<Id>, next: int) {
    forall x :: x in peers && x != c.id ==>
      x in c.nextIndex && c.nextIndex[x] == next && x in c.matchIndex && c.matchIndex[x] == 0
  }

  lemma LeaderTracks(c: Core, peers: seq<Id>)
    ensures TracksFrom(SwitchToLeader(c, peers), peers, LastIndex(c.log) + 1)
  {
    forall x | x in peers && x != c.id ensures x in Tracked(c, peers) {
      var i :| 0 <= i < |peers| && peers[i] == x;
    }
  }

  /** `n` asks everyone, `v` and `w` answer: three of five. */
  lemma Win(s: System, n: Id, v: Id, w: Id, role: Role, term: int, termV: int, log: Log, logV: Log) returns (s': System)
    requires Reached(s) && |s.peers| == 5 && n in s.peers && v in s.peers && w in s.peers && n != v && v != w && n != w
    requires n in s.nodes && v in s.nodes && w in s.nodes
    requires Plain(s.nodes[n], n, role, term, log) && role != Leader && termV <= term
    requires Plain(s.nodes[v], v, Follower, termV, logV) && Plain(s.nodes[w], w, Follower, termV, logV)
    requires IsUpToDate(logV, LastIndex(log), LastTerm(log))
    ensures Reached(s') && s'.peers == s.peers && s'.nodes.Keys == s.nodes.Keys
    ensures Plain(s'.nodes[n], n, Leader, term + 1, log) && TracksFrom(s'.nodes[n], s.peers, LastIndex(log) + 1)
    ensures Plain(s'.nodes[v], v, Follower, term + 1, logV) && Plain(s'.nodes[w], w, Follower, term + 1, logV)
    ensures forall x :: x in s.nodes && x != n && x != v && x != w ==> s'.nodes[x] == s.nodes[x]
  {
    var s1 := Elect(s, n, role, term, log);
    var s2 := GiveVote(s1, v, n, Follower, termV, term + 1, logV, log);
    assert Asking(n, w, term + 1, log) in s2.net;
    var s3 := GiveVote(s2, w, n, Follower, termV, term + 1, logV, log);
    TwoMakeLeader(s3.nodes[n], n, v, w, s.peers);
    var s4 := CountVote(s3, n, v);
    assert Granting(w, n, term + 1) in s4.net;
    s' := CountVote(s4, n, w);
    LeaderTracks(s3.nodes[n].(votes := map[n := true, v := true, w := true]), s.peers);
  }

  ghost predicate Five(ps: seq<Id>) {
    |ps| == 5 && Distinct(ps) && "" !in ps
  }

  lemma FiveMembers(ps: seq<Id>, i: nat, j: nat)
    requires Five(ps) && i < 5 && j < 5
    ensures ps[i] in ps && ps[i] in PeerSet(ps) && (i != j ==> ps[i] != ps[j])
  {
    if i < j {
      assert ps[i] != ps[j];
    } else if j < i {
      assert ps[j] != ps[i];
    }
  }

  lemma FiveDiffer(ps: seq<Id>)
    requires Five(ps)
    ensures forall i: nat :: i < 5 ==> ps[i] in ps && ps[i] in PeerSet(ps)
    ensures forall i: nat, j: nat :: i < 5 && j < 5 && i != j ==> ps[i] != ps[j]
  {
    forall i: nat, j: nat | i < 5 && j < 5
      ensures ps[i] in ps && ps[i] in PeerSet(ps) && (i != j ==> ps[i] != ps[j])
    {
      FiveMembers(ps, i, j);
    }
  }

  lemma StartState(ps: seq<Id>) returns (s: System)
    requires Distinct(ps) && "" !in ps
    ensures Reached(s) && s.peers == ps && s.nodes.Keys == PeerSet(ps)
    ensures forall n :: n in s.nodes ==> Plain(s.nodes[n], n, Follower, 0, [])
  {
    s := System(ps, map n | n in PeerSet(ps) :: NewCore(n), map[], {}, map[], map[]);
    assert Init(s);
    var run, steps: seq<Step> := [s], [];
    assert Run(run, steps) && CrashFree(steps) && run[|steps|] == s;
  }

  // ---------------------------------------------------------------------------
  // One entry reaches one follower
  // ---------------------------------------------------------------------------

  lemma ProposeOne(s: System, n: Id, term: int, log: Log, cmd: Command, longer: Log) returns (s': System)
    requires longer == log + [Entry(|log| + 1, term, cmd)] && Reached(s) && n in s.nodes
    requires Plain(s.nodes[n], n, Leader, term, log) && TracksFrom(s.nodes[n], s.peers, 1)
    ensures Reached(s') && OthersKept(s, s', n)
    ensures Plain(s'.nodes[n], n, Leader, term, longer) && TracksFrom(s'.nodes[n], s.peers, 1)
  {
    ProposePlain(s.nodes[n], n, term, log, cmd, longer);
    s' := Act(s, n, ProposeStep(n, cmd), Effect(ProposeCommand(s.nodes[n], cmd), {}));
  }

  lemma ProposePlain(c: Core, n: Id, term: int, log: Log, cmd: Command, longer: Log)
    requires longer == log + [Entry(|log| + 1, term, cmd)] && Plain(c, n, Leader, term, log)
    ensures Shaped(c)
    ensures
      var r := ProposeCommand(c, cmd);
      Plain(r, n, Leader, term, longer) && r.nextIndex == c.nextIndex && r.matchIndex == c.matchIndex
  {
    StoreNext(log, Entry(|log| + 1, term, cmd));
  }

  lemma FirstEntry(e: Entry)
    ensures [] + [e] == [e]
  {
  }

  lemma ProposeTwo(s: System, n: Id, term: int, log: Log, x: Command, y: Command, one: Log, two: Log) returns (s': System)
    requires one == log + [Entry(|log| + 1, term, x)] && two == one + [Entry(|one| + 1, term, y)]
    requires Reached(s) && n in s.nodes && Plain(s.nodes[n], n, Leader, term, log) && TracksFrom(s.nodes[n], s.peers, 1)
    ensures Reached(s') && OthersKept(s, s', n) && Plain(s'.nodes[n], n, Leader, term, two) && TracksFrom(s'.nodes[n], s.peers, 1)
  {
    var s1 := ProposeOne(s, n, term, log, x, one);
    s' := ProposeOne(s1, n, term, one, y, two);
  }

  lemma TwoEntriesLog(term: int, x: Command, y: Command) returns (one: Log, two: Log)
    ensures one == [] + [Entry(1, term, x)] && two == one + [Entry(|one| + 1, term, y)]
    ensures two == [Entry(1, term, x), Entry(2, term, y)]
  {
    one, two := [Entry(1, term, x)], [Entry(1, term, x), Entry(2, term, y)];
  }

  lemma StoreNext(log: Log, e: Entry)
    requires WellIndexed(log) && e.index == |log| + 1
    ensures WellIndexed(log + [e]) && LogMap(log + [e]) == LogMap(log)[e.index := e]
  {
    assert (log + [e])[..|log|] == log;
  }

  lemma SendAll(s: System, n: Id, dst: Id, term: int, log: Log) returns (s': System)
    requires Reached(s) && n in s.nodes && dst in s.peers && dst != n
    requires Plain(s.nodes[n], n, Leader, term, log) && At(s.nodes[n].nextIndex, dst) == 1
    ensures Reached(s') && OthersKept(s, s', n) && s'.nodes[n] == s.nodes[n]
    ensures Packet(n, dst, WholeLog(n, term, log)) in s'.net
  {
    var p := WholeLog(n, term, log);
    assert log[0..] == log;
    assert SendAppendEntriesTo(s.nodes[n], dst) == Some(p);
    s' := Act(s, n, SendStep(n, dst), Effect(s.nodes[n], {Packet(n, dst, p)}));
  }

  /** A message of the whole log of its leader, at a node with nothing committed. */
  function WholeLog(n: Id, term: int, entries: seq<Entry>): Payload {
    AppendEntries(term, n, 0, 0, entries, 0)
  }

  /** What such a message does to the logs, and how it is answered. */
  lemma TakenWhole(c: Core, n: Id, v: Id, term: int, termV: int, log: Log, entries: seq<Entry>)
    requires Plain(c, v, Follower, termV, log) && termV <= term && WellIndexed(entries)
    ensures Shaped(c) && WellFormedAppend(WholeLog(n, term, entries))
    ensures
      var a := HandleAppendEntries(c, WholeLog(n, term, entries));
      var q := Absorb(LogPair(log, c.disk.logs), entries, 0, false);
      var c1 := if term > termV then SwitchToFollower(c, term) else c;
      && a.core == c1.(leaderHint := n, log := q.mem, disk := c1.disk.(logs := q.stored))
      && AppendReply(a, n) == Packet(v, n, AppendEntriesResponse(term, true, n, 0, LastIndex(q.mem), LastIndex(q.mem)))
  {
  }

  /** An empty log takes in all of it; a message without entries changes nothing. */
  lemma TakenIn(log: Log, entries: seq<Entry>)
    requires WellIndexed(log) && WellIndexed(entries) && (log == [] || entries == [])
    ensures Absorb(LogPair(log, LogMap(log)), entries, 0, false) == LogPair(log + entries, LogMap(log + entries))
  {
    var p := LogPair(log, LogMap(log));
    var q := Absorb(p, entries, 0, false);
    if log == [] {
      assert log + entries == entries && entries[0..|entries|] == entries;
      AbsorbSlice(p, entries, 0, |entries|, false);
      AbsorbCovers(p, entries, 0, 0);
      CoversInStep(q, |entries|);
    } else {
      assert log + entries == log;
    }
  }

  lemma TakeIn(s: System, n: Id, v: Id, term: int, termV: int, log: Log, entries: seq<Entry>) returns (s': System)
    requires Reached(s) && v in s.nodes && Plain(s.nodes[v], v, Follower, termV, log) && termV <= term
    requires Packet(n, v, WholeLog(n, term, entries)) in s.net
    requires WellIndexed(entries) && (log == [] || entries == [])
    ensures Reached(s') && OthersKept(s, s', v) && Plain(s'.nodes[v], v, Follower, term, log + entries)
    ensures
      var last := LastIndex(log + entries);
      Packet(v, n, AppendEntriesResponse(term, true, n, 0, last, last)) in s'.net
  {
    var pkt := Packet(n, v, WholeLog(n, term, entries));
    var c, sent := TakenPlain(s.nodes[v], n, v, term, termV, log, entries);
    s' := Act(s, v, AppendStep(v, pkt), Effect(c, {sent}));
  }

  lemma TakenPlain(c: Core, n: Id, v: Id, term: int, termV: int, log: Log, entries: seq<Entry>) returns (c': Core, sent: Packet)
    requires Plain(c, v, Follower, termV, log) && termV <= term && WellIndexed(entries) && (log == [] || entries == [])
    ensures Shaped(c) && WellFormedAppend(WholeLog(n, term, entries))
    ensures
      var a := HandleAppendEntries(c, WholeLog(n, term, entries));
      var last := LastIndex(log + entries);
      && c' == a.core && sent == AppendReply(a, n) == Packet(v, n, AppendEntriesResponse(term, true, n, 0, last, last))
    ensures Plain(c', v, Follower, term, log + entries)
  {
    var a := HandleAppendEntries(c, WholeLog(n, term, entries));
    c', sent := a.core, AppendReply(a, n);
    TakenWhole(c, n, v, term, termV, log, entries);
    TakenIn(log, entries);
    IndexedConcat(log, entries);
  }

  lemma IndexedConcat(log: Log, entries: seq<Entry>)
    requires WellIndexed(log) && WellIndexed(entries) && (log == [] || entries == [])
    ensures WellIndexed(log + entries)
  {
  }

  lemma Replicate(s: System, n: Id, v: Id, term: int, termV: int, log: Log, logV: Log, both: Log) returns (s': System)
    requires both == logV + log && Reached(s) && n in s.nodes && v in s.nodes && v in s.peers && v != n && termV <= term
    requires Plain(s.nodes[n], n, Leader, term, log) && TracksFrom(s.nodes[n], s.peers, 1)
    requires Plain(s.nodes[v], v, Follower, termV, logV) && (logV == [] || log == [])
    ensures Reached(s') && OthersKept(s, s', v) && Plain(s'.nodes[v], v, Follower, term, both)
    ensures
      var last := LastIndex(both);
      Packet(v, n, AppendEntriesResponse(term, true, n, 0, last, last)) in s'.net
  {
    var s1 := SendAll(s, n, v, term, log);
    s' := TakeIn(s1, n, v, term, termV, logV, log);
  }

  /** How many indexes the peers contribute, and how many of them are below 1. */
  ghost predicate Tally(c: Core, peers: seq<Id>, all: nat, low: nat) {
    |PeerIndexes(c, peers)| == all && CountBelow(PeerIndexes(c, peers), 1) == low
  }

  lemma TallyOne(c: Core, peers: seq<Id>, p: Id, all: nat, low: nat)
    requires Tally(c, peers, all, low)
    requires p != c.id ==> p in c.matchIndex
    ensures
      if p == c.id then Tally(c, peers + [p], all, low)
      else Tally(c, peers + [p], all + 1, low + if c.matchIndex[p] < 1 then 1 else 0)
  {
    var more := if p == c.id then [] else [c.matchIndex[p]];
    assert (peers + [p])[..|peers|] == peers;
    assert PeerIndexes(c, peers + [p]) == PeerIndexes(c, peers) + more;
    CountBelowAppend(PeerIndexes(c, peers), more, 1);
  }

  /** When three of five indexes are below 1, the selected one is. */
  lemma MostAreLow(s: seq<int>, v: int)
    requires |s| == 5 && CountBelow(s, 1) >= 3 && IsKth(s, |s| / 2, v)
    ensures v < 1
  {
    if v >= 1 {
      CountBelowMonotone(s, 1, v);
    }
  }

  ghost predicate OnlyOneAhead(c: Core, ps: seq<Id>)
    requires Five(ps)
  {
    && c.id == ps[2] && c.log == [] && c.commitIndex == 0 && c.lastApplied == 0
    && ps[0] in c.matchIndex && ps[1] in c.matchIndex && ps[3] in c.matchIndex && ps[4] in c.matchIndex
    && c.matchIndex[ps[0]] == c.matchIndex[ps[3]] == c.matchIndex[ps[4]] == 0 && c.matchIndex[ps[1]] == 1
  }

  lemma TallyAll(c: Core, ps: seq<Id>)
    requires Five(ps) && OnlyOneAhead(c, ps)
    ensures Tally(c, ps, 4, 3)
  {
    FiveDiffer(ps);
    assert Tally(c, [], 0, 0);
    TallyOne(c, [], ps[0], 0, 0);
    TallyOne(c, [] + [ps[0]], ps[1], 1, 1);
    TallyOne(c, [] + [ps[0]] + [ps[1]], ps[2], 2, 1);
    TallyOne(c, [] + [ps[0]] + [ps[1]] + [ps[2]], ps[3], 2, 1);
    TallyOne(c, [] + [ps[0]] + [ps[1]] + [ps[2]] + [ps[3]], ps[4], 3, 2);
    assert [] + [ps[0]] + [ps[1]] + [ps[2]] + [ps[3]] + [ps[4]] == ps;
  }

  /** Four of the five indexes are 0, so nothing is committed. */
  lemma NothingCommitted(c: Core, ps: seq<Id>)
    requires Five(ps) && OnlyOneAhead(c, ps)
    ensures AdvanceCommitIndex(c, ps) == Some(c)
  {
    var indexes := MatchIndexes(c, ps);
    TallyAll(c, ps);
    CountBelowAppend([0], PeerIndexes(c, ps), 1);
    MostAreLow(indexes, Kth(indexes, |indexes| / 2));
  }

  lemma TakeReply(s: System, ps: seq<Id>) returns (s': System)
    requires Five(ps) && Reached(s) && s.peers == ps && ps[2] in s.nodes
    requires Plain(s.nodes[ps[2]], ps[2], Leader, 2, []) && TracksFrom(s.nodes[ps[2]], ps, 1)
    requires Packet(ps[1], ps[2], AppendEntriesResponse(2, true, ps[2], 0, 1, 1)) in s.net
    ensures Reached(s') && OthersKept(s, s', ps[2]) && Plain(s'.nodes[ps[2]], ps[2], Leader, 2, [])
    ensures SendAppendEntriesTo(s'.nodes[ps[2]], ps[1]) == None
  {
    var c, p := s.nodes[ps[2]], AppendEntriesResponse(2, true, ps[2], 0, 1, 1);
    var c' := ReplyTaken(c, p, ps);
    s' := Act(s, ps[2], AppendReplyStep(ps[2], Packet(ps[1], ps[2], p)), Effect(c', {}));
  }

  lemma ReplyTaken(c: Core, p: Payload, ps: seq<Id>) returns (c': Core)
    requires Five(ps) && Plain(c, ps[2], Leader, 2, []) && TracksFrom(c, ps, 1) && p == AppendEntriesResponse(2, true, ps[2], 0, 1, 1)
    ensures HandleAppendEntriesResponse(c, ps[1], p, ps) == Some(c') && Plain(c', ps[2], Leader, 2, [])
    ensures SendAppendEntriesTo(c', ps[1]) == None
  {
    FiveDiffer(ps);
    c' := c.(matchIndex := c.matchIndex[ps[1] := 1], nextIndex := c.nextIndex[ps[1] := 2]);
    NothingCommitted(c', ps);
  }

  lemma FirstLeader(ps: seq<Id>) returns (s: System)
    requires Five(ps)
    ensures Reached(s) && s.peers == ps && s.nodes.Keys == PeerSet(ps)
    ensures Plain(s.nodes[ps[0]], ps[0], Leader, 1, []) && TracksFrom(s.nodes[ps[0]], ps, 1)
    ensures Plain(s.nodes[ps[1]], ps[1], Follower, 1, []) && Plain(s.nodes[ps[2]], ps[2], Follower, 1, [])
    ensures Plain(s.nodes[ps[3]], ps[3], Follower, 0, []) && Plain(s.nodes[ps[4]], ps[4], Follower, 0, [])
  {
    FiveDiffer(ps);
    var s0 := StartState(ps);
    s := Win(s0, ps[0], ps[1], ps[2], Follower, 0, 0, [], []);
  }

  /** The first node, leader of term 1, gets its entry to the second only. */
  lemma FirstTerm(ps: seq<Id>, cmd: Command) returns (s: System)
    requires Five(ps)
    ensures Reached(s) && s.peers == ps && s.nodes.Keys == PeerSet(ps)
    ensures Plain(s.nodes[ps[1]], ps[1], Follower, 1, [Entry(1, 1, cmd)]) && Plain(s.nodes[ps[2]], ps[2], Follower, 1, [])
    ensures Plain(s.nodes[ps[3]], ps[3], Follower, 0, []) && Plain(s.nodes[ps[4]], ps[4], Follower, 0, [])
  {
    var e := Entry(1, 1, cmd);
    FiveDiffer(ps);
    var s1 := FirstLeader(ps);
    FirstEntry(e);
    var s2 := ProposeOne(s1, ps[0], 1, [], cmd, [e]);
    s := Replicate(s2, ps[0], ps[1], 1, 1, [e], [], [e]);
  }

  /** The third, whose log is empty, is elected for term 2 by the last two, and its first message succeeds at the second. */
  lemma SecondTerm(s: System, ps: seq<Id>, e: Entry) returns (s': System)
    requires Five(ps) && Reached(s) && s.peers == ps && s.nodes.Keys == PeerSet(ps)
    requires Plain(s.nodes[ps[1]], ps[1], Follower, 1, [e]) && Plain(s.nodes[ps[2]], ps[2], Follower, 1, [])
    requires Plain(s.nodes[ps[3]], ps[3], Follower, 0, []) && Plain(s.nodes[ps[4]], ps[4], Follower, 0, [])
    ensures Reached(s') && s'.peers == ps && s'.nodes.Keys == s.nodes.Keys
    ensures Plain(s'.nodes[ps[2]], ps[2], Leader, 2, []) && TracksFrom(s'.nodes[ps[2]], ps, 1)
    ensures Plain(s'.nodes[ps[1]], ps[1], Follower, 2, [e])
    ensures Packet(ps[1], ps[2], AppendEntriesResponse(2, true, ps[2], 0, 1, 1)) in s'.net
  {
    FiveDiffer(ps);
    var s1 := Win(s, ps[2], ps[3], ps[4], Follower, 1, 0, [], []);
    s' := Replicate(s1, ps[2], ps[1], 2, 1, [], [e], [e]);
  }

  /** For any five nodes: after that reply the leader can no longer send to the second node, whose log is longer than its own. */
  lemma LongerFollowerHappens(ps: seq<Id>, cmd: Command) returns (before: System, after: System)
    requires Five(ps)
    ensures Reached(before) && Reached(after) && ps[1] in after.nodes && ps[2] in before.nodes && ps[2] in after.nodes
    ensures before.nodes[ps[2]].role == after.nodes[ps[2]].role == Leader
    ensures SendAppendEntriesTo(before.nodes[ps[2]], ps[1]).Some?
    ensures SendAppendEntriesTo(after.nodes[ps[2]], ps[1]) == None
    ensures |after.nodes[ps[1]].log| == 1 && after.nodes[ps[2]].log == []
  {
    FiveDiffer(ps);
    var s := FirstTerm(ps, cmd);
    before := SecondTerm(s, ps, Entry(1, 1, cmd));
    after := TakeReply(before, ps);
  }
}
